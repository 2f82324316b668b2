/**
 Routing rules (internal/routing/manager.go): the user's own rules beside those
 that each subscription brings. The rules are a slice, a backing array with a
 length, that syncing filters in place and then appends to.
 */
module RoutingRules {
  import opened Common

  datatype Origin = Manual | FromSubscription

  /** A random id, or subscriptionRuleID, whose hash is taken to be injective. */
  datatype RuleId = Random(text: string) | Imported(subscription: string, source: string, occurrence: nat)

  datatype Condition = Condition(kind: string, values: seq<string>)

  datatype Rule = Rule(
    id: RuleId,
    name: string,
    enabled: bool,
    origin: Origin,
    subscription: string,
    subscriptionName: string,
    conditions: seq<Condition>,
    action: string,
    supported: bool,
    reason: string,
    source: string,
    position: int)

  datatype ImportedRule = ImportedRule(
    name: string, conditions: seq<Condition>, action: string, supported: bool, reason: string, source: string)

  datatype Error = NotFound | OnlyToggle | Unsupported | OnlyManual | Invalid | WrongLength | UnknownRule
    | DuplicateRule | NotPersisted

  predicate IsOf(r: Rule, sub: string) {
    r.origin == FromSubscription && r.subscription == sub
  }

  // ----- syncing

  /** The rules that are not this subscription's. */
  function Kept(rules: seq<Rule>, sub: string): seq<Rule>
    decreases |rules|
  {
    if rules == [] then []
    else
      var before, last := Kept(rules[..|rules| - 1], sub), rules[|rules| - 1];
      if IsOf(last, sub) then before else before + [last]
  }

  lemma KeptMore(rules: seq<Rule>, r: Rule, sub: string)
    ensures Kept(rules + [r], sub) == if IsOf(r, sub) then Kept(rules, sub) else Kept(rules, sub) + [r]
  {
    DropLast(rules, r);
  }

  /** The last of this subscription's rules with this id. */
  function Existing(rules: seq<Rule>, sub: string, id: RuleId): Option<Rule>
    decreases |rules|
  {
    if rules == [] then None
    else
      var last := rules[|rules| - 1];
      if IsOf(last, sub) && last.id == id then Some(last) else Existing(rules[..|rules| - 1], sub, id)
  }

  lemma ExistingMore(rules: seq<Rule>, r: Rule, sub: string, id: RuleId)
    ensures Existing(rules + [r], sub, id) == if IsOf(r, sub) && r.id == id then Some(r) else Existing(rules, sub, id)
  {
    DropLast(rules, r);
  }

  /** The table of this subscription's rules by id. */
  ghost predicate IsExisting(rules: seq<Rule>, sub: string, table: map<RuleId, Rule>) {
    forall id :: (id in table <==> Existing(rules, sub, id).Some?)
      && (id in table ==> Existing(rules, sub, id) == Some(table[id]))
  }

  lemma ExistingStep(rules: seq<Rule>, sub: string, table: map<RuleId, Rule>, r: Rule)
    requires IsExisting(rules, sub, table)
    ensures IsExisting(rules + [r], sub, if IsOf(r, sub) then table[r.id := r] else table)
  {
    forall id
      ensures
        Existing(rules + [r], sub, id) == if IsOf(r, sub) && r.id == id then Some(r) else Existing(rules, sub, id)
    {
      ExistingMore(rules, r, sub, id);
    }
  }

  /** How often a source occurs. */
  function Count(imported: seq<ImportedRule>, source: string): nat
    decreases |imported|
  {
    if imported == [] then 0
    else Count(imported[..|imported| - 1], source) + if imported[|imported| - 1].source == source then 1 else 0
  }

  ghost predicate IsCount(imported: seq<ImportedRule>, table: map<string, nat>) {
    forall source :: Count(imported, source) == if source in table then table[source] else 0
  }

  lemma CountMore(imported: seq<ImportedRule>, r: ImportedRule, source: string)
    ensures Count(imported + [r], source) == Count(imported, source) + if r.source == source then 1 else 0
  {
    DropLast(imported, r);
  }

  lemma CountStep(imported: seq<ImportedRule>, r: ImportedRule, table: map<string, nat>)
    requires IsCount(imported, table)
    ensures IsCount(imported + [r], table[r.source := (if r.source in table then table[r.source] else 0) + 1])
  {
    forall source
      ensures Count(imported + [r], source) == Count(imported, source) + if r.source == source then 1 else 0 {
      CountMore(imported, r, source);
    }
  }

  function IdAt(sub: string, imported: seq<ImportedRule>, i: nat): RuleId
    requires i < |imported|
  {
    Imported(sub, imported[i].source, Count(imported[..i], imported[i].source))
  }

  function RuleAt(rules: seq<Rule>, sub: string, name: string, imported: seq<ImportedRule>, i: nat): Rule
    requires i < |imported|
  {
    var source, id := imported[i], IdAt(sub, imported, i);
    var enabled := Existing(rules, sub, id).Some? && source.supported && Existing(rules, sub, id).value.enabled;
    Rule(id, source.name, enabled, FromSubscription, sub, name, source.conditions, source.action, source.supported,
        source.reason, source.source, i)
  }

  function NewRules(rules: seq<Rule>, sub: string, name: string, imported: seq<ImportedRule>): seq<Rule> {
    seq(|imported|, i requires 0 <= i < |imported| => RuleAt(rules, sub, name, imported, i))
  }

  function Synced(rules: seq<Rule>, sub: string, name: string, imported: seq<ImportedRule>): seq<Rule> {
    Kept(rules, sub) + NewRules(rules, sub, name, imported)
  }

  // ----- the other operations

  function IndexOf(rules: seq<Rule>, id: RuleId): (i: nat)
    ensures i <= |rules|
    ensures i < |rules| ==> rules[i].id == id
    ensures forall k :: 0 <= k < i ==> rules[k].id != id
  {
    if rules == [] then 0 else if rules[0].id == id then 0 else 1 + IndexOf(rules[1..], id)
  }

  /** One more than the highest manual position. */
  function NextPosition(rules: seq<Rule>): int
    decreases |rules|
  {
    if rules == [] then 0
    else
      var before, last := NextPosition(rules[..|rules| - 1]), rules[|rules| - 1];
      if last.origin == Manual && last.position >= before then last.position + 1 else before
  }

  function Created(rules: seq<Rule>, id: RuleId, name: string, enabled: bool, conditions: seq<Condition>,
      action: string): seq<Rule> {
    rules + [Rule(id, name, enabled, Manual, "", "", conditions, action, true, "", "", NextPosition(rules))]
  }

  /** The fields of a manual rule that the user may edit, and whether they validate. */
  datatype Edit = Edit(name: string, conditions: seq<Condition>, action: string, valid: bool)

  function Edited(r: Rule, edit: Option<Edit>, enabled: Option<bool>): Rule {
    var named :=
      if edit.Some? then
        r.(name := edit.value.name, conditions := edit.value.conditions, action := edit.value.action)
      else r;
    if enabled.Some? then named.(enabled := enabled.value) else named
  }

  /** A subscription's rule can only be switched, and only switched on if it is supported. */
  function Updated(rules: seq<Rule>, id: RuleId, edit: Option<Edit>, enabled: Option<bool>): Result<seq<Rule>, Error> {
    var i := IndexOf(rules, id);
    if i == |rules| then Err(NotFound)
    else if rules[i].origin == FromSubscription && edit.Some? then Err(OnlyToggle)
    else if rules[i].origin == FromSubscription && enabled == Some(true) && !rules[i].supported then Err(Unsupported)
    else if rules[i].origin == Manual && edit.Some? && !edit.value.valid then Err(Invalid)
    else Ok(rules[i := Edited(rules[i], edit, enabled)])
  }

  predicate IsManual(rules: seq<Rule>, i: nat) {
    i < |rules| && rules[i].origin == Manual
  }

  predicate Within(rules: seq<Rule>, order: seq<nat>) {
    forall j :: 0 <= j < |order| ==> order[j] < |rules|
  }

  /** What sort.Slice may leave: each manual rule once, by position; those at the same position in any order. */
  ghost predicate SortsManual(rules: seq<Rule>, order: seq<nat>) {
    && Within(rules, order) && Distinct(order)
    && (forall j :: 0 <= j < |order| ==> IsManual(rules, order[j]))
    && (forall i: nat :: IsManual(rules, i) ==> i in order)
    && forall a, b :: 0 <= a < b < |order| ==> rules[order[a]].position <= rules[order[b]].position
  }

  /** The rules get the positions 0, 1, 2, ... in this order. */
  function Numbered(rules: seq<Rule>, order: seq<nat>): (v: seq<Rule>)
    requires Within(rules, order)
    ensures |v| == |rules|
    decreases |order|
  {
    if order == [] then rules
    else
      var n := |order| - 1;
      var before := Numbered(rules, order[..n]);
      before[order[n] := before[order[n]].(position := n)]
  }

  lemma NumberedMore(rules: seq<Rule>, order: seq<nat>, k: nat)
    requires Within(rules, order) && k < |order|
    ensures Within(rules, order[..k]) && Within(rules, order[..k + 1])
    ensures
      var before := Numbered(rules, order[..k]);
      Numbered(rules, order[..k + 1]) == before[order[k] := before[order[k]].(position := k)]
  {
    TakeOneMore(order, k);
  }

  function Removed(rules: seq<Rule>, i: nat): seq<Rule>
    requires i < |rules|
  {
    rules[..i] + rules[i + 1..]
  }

  /** `order` is how the sort leaves the manual rules that remain. */
  function Deleted(rules: seq<Rule>, id: RuleId, order: seq<nat>): Result<seq<Rule>, Error>
    requires CanDelete(rules, id) ==> Within(Removed(rules, IndexOf(rules, id)), order)
  {
    var i := IndexOf(rules, id);
    if i == |rules| then Err(NotFound)
    else if rules[i].origin != Manual then Err(OnlyManual)
    else Ok(Numbered(Removed(rules, i), order))
  }

  predicate CanDelete(rules: seq<Rule>, id: RuleId) {
    IsManual(rules, IndexOf(rules, id))
  }

  // ----- reordering

  /** Where the manual rule with this id is; the last one, as the table built by the loop remembers it. */
  function ManualAt(rules: seq<Rule>, id: RuleId): (i: Option<nat>)
    ensures i.Some? ==> i.value < |rules| && rules[i.value].origin == Manual && rules[i.value].id == id
    decreases |rules|
  {
    if rules == [] then None
    else
      var last := rules[|rules| - 1];
      if last.origin == Manual && last.id == id then Some(|rules| - 1) else ManualAt(rules[..|rules| - 1], id)
  }

  function ManualIds(rules: seq<Rule>): set<RuleId> {
    set i | 0 <= i < |rules| && rules[i].origin == Manual :: rules[i].id
  }

  function Placed(rules: seq<Rule>, index: Option<nat>, position: int): seq<Rule>
    requires index.Some? ==> index.value < |rules|
  {
    if index.Some? then rules[index.value := rules[index.value].(position := position)] else rules
  }

  /** The listed rules get their places in the list as positions. */
  function PlacedAll(rules: seq<Rule>, ids: seq<RuleId>): (r: seq<Rule>)
    ensures |r| == |rules|
    decreases |ids|
  {
    if ids == [] then rules
    else Placed(PlacedAll(rules, ids[..|ids| - 1]), ManualAt(rules, ids[|ids| - 1]), |ids| - 1)
  }

  /** What is wrong with the last entry of a list, if something is. */
  function Objection(rules: seq<Rule>, ids: seq<RuleId>, k: nat): Option<Error>
    requires k < |ids|
  {
    if ManualAt(rules, ids[k]).None? then Some(UnknownRule) else if ids[k] in ids[..k] then Some(DuplicateRule)
        else None
  }

  /** The first entry that is objected to, or the length of the list. */
  function FirstBad(rules: seq<Rule>, ids: seq<RuleId>, from: nat): (k: nat)
    requires from <= |ids|
    ensures from <= k <= |ids|
    ensures forall j :: from <= j < k ==> Objection(rules, ids, j).None?
    ensures k < |ids| ==> Objection(rules, ids, k).Some?
    decreases |ids| - from
  {
    if from == |ids| || Objection(rules, ids, from).Some? then from else FirstBad(rules, ids, from + 1)
  }

  /** Reorder up to the write: the rules as they are left, and the error. */
  function Reordered(rules: seq<Rule>, ids: seq<RuleId>): (seq<Rule>, Option<Error>) {
    var bad := FirstBad(rules, ids, 0);
    if |ids| != |ManualIds(rules)| then (rules, Some(WrongLength))
    else if bad < |ids| then (PlacedAll(rules, ids[..bad]), Objection(rules, ids, bad))
    else (PlacedAll(rules, ids), None)
  }

  ghost predicate IsManualTable(rules: seq<Rule>, table: map<RuleId, nat>) {
    && table.Keys == ManualIds(rules)
    && forall id ::
      && (id in table <==> ManualAt(rules, id).Some?)
      && (id in table ==> ManualAt(rules, id) == Some(table[id]))
  }

  lemma ManualTableStep(rules: seq<Rule>, r: Rule, table: map<RuleId, nat>)
    requires IsManualTable(rules, table)
    ensures IsManualTable(rules + [r], if r.origin == Manual then table[r.id := |rules|] else table)
  {
    var all := rules + [r];
    DropLast(rules, r);
    assert all[|rules|] == r;
    forall id ensures id in ManualIds(all) <==> id in ManualIds(rules) || (r.origin == Manual && r.id == id) {
      if id in ManualIds(rules) {
        var i :| 0 <= i < |rules| && rules[i].origin == Manual && rules[i].id == id;
        assert all[i] == rules[i];
      }
    }
  }

  // ----- the manager

  class Manager {
    var data: array<Rule>
    var size: nat

    ghost predicate Valid()
      reads this
    {
      size <= data.Length
    }

    ghost function Rules(): seq<Rule>
      requires Valid()
      reads this, data
    {
      data[..size]
    }

    constructor ()
      ensures Valid() && fresh(data) && Rules() == []
    {
      data := new Rule[0];
      size := 0;
    }

    method CloneRules() returns (copy: array<Rule>)
      requires Valid()
      ensures fresh(copy) && copy[..] == Rules()
    {
      copy := new Rule[size];
      for i := 0 to size
        invariant copy[..i] == data[..i]
      {
        copy[i] := data[i];
      }
      assert copy[..size] == copy[..];
    }

    /** Puts the rules back that were there before a failed write. */
    method Restore(previous: array<Rule>)
      modifies this
      ensures Valid() && data == previous && Rules() == previous[..]
    {
      data := previous;
      size := previous.Length;
      assert data[..size] == data[..];
    }

    /** append: in place while there is room, else into a larger array. */
    method Append(r: Rule)
      requires Valid()
      modifies this, data
      ensures Valid() && (data == old(data) || fresh(data))
      ensures Rules() == old(Rules()) + [r]
    {
      if size == data.Length {
        var larger := new Rule[2 * size + 1];
        for i := 0 to size
          invariant data == old(data) && size == old(size) && data[..] == old(data[..])
          invariant larger[..i] == data[..i]
        {
          larger[i] := data[i];
        }
        data := larger;
      }
      data[size] := r;
      size := size + 1;
    }

    /** The first `i` rules have been looked at, and those to keep are in the first `kept` places. */
    ghost predicate TakingOut(was: seq<Rule>, sub: string, i: nat, kept: nat, existing: map<RuleId, Rule>)
      reads this, data
    {
      && kept <= i <= size == |was| <= data.Length
      && (forall k :: i <= k < size ==> data[k] == was[k])
      && data[..kept] == Kept(was[..i], sub)
      && IsExisting(was[..i], sub, existing)
    }

    method TakeOne(sub: string, i: nat, kept: nat, existing: map<RuleId, Rule>, ghost was: seq<Rule>)
      returns (keptNow: nat, existingNow: map<RuleId, Rule>)
      requires i < size && TakingOut(was, sub, i, kept, existing)
      modifies data
      ensures TakingOut(was, sub, i + 1, keptNow, existingNow)
    {
      var rule := data[i];
      TakeOneMore(was, i);
      KeptMore(was[..i], rule, sub);
      existingNow := Remember(sub, existing, rule, was[..i]);
      keptNow := kept;
      if !IsOf(rule, sub) {
        ghost var before := data[..kept];
        data[kept] := rule;
        keptNow := kept + 1;
        assert data[..keptNow] == before + [rule];
      }
    }

    /** Takes this subscription's rules out, in place, and remembers them by id. */
    method TakeOut(sub: string) returns (existing: map<RuleId, Rule>)
      requires Valid()
      modifies this`size, data
      ensures Valid() && data == old(data)
      ensures Rules() == Kept(old(Rules()), sub)
      ensures IsExisting(old(Rules()), sub, existing)
    {
      ghost var was := Rules();
      existing := map[];
      var kept := 0;
      for i := 0 to size
        invariant TakingOut(was, sub, i, kept, existing)
      {
        kept, existing := TakeOne(sub, i, kept, existing, was);
      }
      TakeAll(was);
      size := kept;
    }

    static method Remember(sub: string, table: map<RuleId, Rule>, r: Rule, ghost rules: seq<Rule>)
      returns (after: map<RuleId, Rule>)
      requires IsExisting(rules, sub, table)
      ensures IsExisting(rules + [r], sub, after)
    {
      ExistingStep(rules, sub, table, r);
      after := if IsOf(r, sub) then table[r.id := r] else table;
    }

    /** The rule for one imported rule, and the occurrences counted with it. */
    static method ImportRule(
      sub: string, name: string, source: ImportedRule, i: nat, existing: map<RuleId, Rule>, counted: map<string, nat>,
      ghost was: seq<Rule>, ghost imported: seq<ImportedRule>)
      returns (rule: Rule, countedNow: map<string, nat>)
      requires i < |imported| && imported[i] == source
      requires IsExisting(was, sub, existing) && IsCount(imported[..i], counted)
      ensures rule == RuleAt(was, sub, name, imported, i) && IsCount(imported[..i + 1], countedNow)
    {
      var occurrence := if source.source in counted then counted[source.source] else 0;
      countedNow := counted[source.source := occurrence + 1];
      TakeOneMore(imported, i);
      CountStep(imported[..i], source, counted);
      var id := Imported(sub, source.source, occurrence);
      var enabled := false;
      if id in existing && source.supported {
        enabled := existing[id].enabled;
      }
      rule := Rule(id, source.name, enabled, FromSubscription, sub, name,
                   source.conditions, source.action, source.supported, source.reason, source.source, i);
    }

    method SyncSubscriptionRules(sub: string, name: string, imported: seq<ImportedRule>, persisted: bool)
      returns (ok: bool)
      requires Valid()
      modifies this, data
      ensures Valid() && ok == persisted
      ensures Rules() == if persisted then Synced(old(Rules()), sub, name, imported) else old(Rules())
    {
      ghost var was := Rules();
      var previous := CloneRules();
      var existing := TakeOut(sub);
      var occurrences: map<string, nat> := map[];
      ghost var fromImport := NewRules(was, sub, name, imported);
      for i := 0 to |imported|
        invariant Valid() && (data == old(data) || fresh(data)) && data != previous && previous[..] == was
        invariant Rules() == Kept(was, sub) + fromImport[..i]
        invariant IsCount(imported[..i], occurrences)
      {
        var rule;
        rule, occurrences := ImportRule(sub, name, imported[i], i, existing, occurrences, was, imported);
        TakeOneMore(fromImport, i);
        Append(rule);
      }
      TakeAll(fromImport);
      if !persisted {
        Restore(previous);
      }
      return persisted;
    }

    method DeleteSubscriptionRules(sub: string, persisted: bool) returns (ok: bool)
      requires Valid()
      modifies this, data
      ensures Valid() && ok == persisted
      ensures Rules() == if persisted then Kept(old(Rules()), sub) else old(Rules())
    {
      var previous := CloneRules();
      var existing := TakeOut(sub);
      if !persisted {
        Restore(previous);
      }
      return persisted;
    }

    method Find(id: RuleId) returns (index: nat)
      requires Valid()
      ensures index == IndexOf(Rules(), id)
    {
      index := 0;
      while index < size
        invariant index <= size
        invariant IndexOf(Rules(), id) == index + IndexOf(Rules()[index..], id)
      {
        assert Rules()[index..][1..] == Rules()[index + 1..] && Rules()[index..][0] == data[index];
        if data[index].id == id {
          return;
        }
        index := index + 1;
      }
    }

    method NextManualPosition() returns (position: int)
      requires Valid()
      ensures position == NextPosition(Rules())
    {
      position := 0;
      ghost var was := Rules();
      for i := 0 to size
        invariant position == NextPosition(was[..i])
      {
        TakeOneMore(was, i);
        if data[i].origin == Manual && data[i].position >= position {
          position := data[i].position + 1;
        }
      }
      TakeAll(was);
    }

    method Create(id: RuleId, name: string, enabled: bool, conditions: seq<Condition>, action: string, persisted: bool)
      returns (r: Result<(), Error>)
      requires Valid()
      modifies this, data
      ensures Valid() && (r.Ok? <==> persisted)
      ensures Rules() == if persisted then Created(old(Rules()), id, name, enabled, conditions, action)
          else old(Rules())
    {
      var position := NextManualPosition();
      ghost var was := Rules();
      var rule := Rule(id, name, enabled, Manual, "", "", conditions, action, true, "", "", position);
      Append(rule);
      if !persisted {
        size := size - 1;
        DropLast(was, rule);
        assert data[..size] == (was + [rule])[..size];
        return Err(NotPersisted);
      }
      return Ok(());
    }

    method Update(id: RuleId, edit: Option<Edit>, enabled: Option<bool>, persisted: bool) returns (r: Result<(), Error>)
      requires Valid()
      modifies data
      ensures Valid()
      ensures
        var after := Updated(old(Rules()), id, edit, enabled);
        if after.Err? then Rules() == old(Rules()) && r == Err(after.error)
        else if persisted then Rules() == after.value && r == Ok(())
        else Rules() == old(Rules()) && r == Err(NotPersisted)
    {
      var index := Find(id);
      if index == size {
        return Err(NotFound);
      }
      var previous := data[index];
      var current := previous;
      if current.origin == FromSubscription {
        if edit.Some? {
          return Err(OnlyToggle);
        }
        if enabled.Some? && enabled.value && !current.supported {
          return Err(Unsupported);
        }
        if enabled.Some? {
          current := current.(enabled := enabled.value);
        }
      } else {
        if edit.Some? && !edit.value.valid {
          return Err(Invalid);
        }
        current := Edited(current, edit, enabled);
      }
      data[index] := current;
      if !persisted {
        data[index] := previous;
        return Err(NotPersisted);
      }
      return Ok(());
    }

    /** Closes the gap at `index` by moving the later rules forward. */
    method RemoveAt(index: nat)
      requires Valid() && index < size
      modifies this`size, data
      ensures Valid() && data == old(data)
      ensures Rules() == Removed(old(Rules()), index)
    {
      ghost var was := Rules();
      ghost var after := was[..index] + was[index + 1..];
      for i := index to size - 1
        invariant size == |was|
        invariant forall k :: 0 <= k < i ==> data[k] == after[k]
        invariant forall k :: i <= k < size ==> data[k] == was[k]
      {
        data[i] := data[i + 1];
      }
      size := size - 1;
    }

    /** normalizeManualPositionsLocked; `order` is what the sort made of the indices. */
    method NormalizePositions(order: seq<nat>)
      requires Valid() && SortsManual(Rules(), order)
      modifies data
      ensures Valid() && Within(old(Rules()), order) && Rules() == Numbered(old(Rules()), order)
    {
      ghost var was := Rules();
      for position := 0 to |order|
        invariant Valid() && Rules() == Numbered(was, order[..position])
      {
        NumberedMore(was, order, position);
        data[order[position]] := data[order[position]].(position := position);
      }
      TakeAll(order);
    }

    method Delete(id: RuleId, order: seq<nat>, persisted: bool) returns (r: Result<(), Error>)
      requires Valid()
      requires CanDelete(Rules(), id) ==> SortsManual(Removed(Rules(), IndexOf(Rules(), id)), order)
      modifies this, data
      ensures Valid()
      ensures
        var after := Deleted(old(Rules()), id, order);
        if after.Err? then Rules() == old(Rules()) && r == Err(after.error)
        else if persisted then Rules() == after.value && r == Ok(())
        else Rules() == old(Rules()) && r == Err(NotPersisted)
    {
      var index := Find(id);
      if index == size {
        return Err(NotFound);
      }
      if data[index].origin != Manual {
        return Err(OnlyManual);
      }
      var previous := CloneRules();
      RemoveAt(index);
      NormalizePositions(order);
      if !persisted {
        Restore(previous);
        return Err(NotPersisted);
      }
      return Ok(());
    }

    method IndexManual() returns (table: map<RuleId, nat>)
      requires Valid()
      ensures IsManualTable(Rules(), table)
    {
      table := map[];
      ghost var was := Rules();
      for i := 0 to size
        invariant IsManualTable(was[..i], table)
      {
        TakeOneMore(was, i);
        ManualTableStep(was[..i], data[i], table);
        if data[i].origin == Manual {
          table := table[data[i].id := i];
        }
      }
      TakeAll(was);
    }

    /** An unknown or repeated id ends the loop where it stands, with the earlier rules already placed. */
    method Reorder(ids: seq<RuleId>, persisted: bool) returns (r: Result<(), Error>)
      requires Valid()
      modifies this, data
      ensures Valid()
      ensures
        var (after, error) := Reordered(old(Rules()), ids);
        if error.Some? then Rules() == after && r == Err(error.value)
        else if persisted then Rules() == after && r == Ok(())
        else Rules() == old(Rules()) && r == Err(NotPersisted)
    {
      ghost var was := Rules();
      var manual := IndexManual();
      if |ids| != |manual.Keys| {
        return Err(WrongLength);
      }
      var previous := CloneRules();
      var seen: set<RuleId> := {};
      for position := 0 to |ids|
        invariant data == old(data) && size == old(size) && previous[..] == was
        invariant Rules() == PlacedAll(was, ids[..position])
        invariant forall id :: id in seen <==> id in ids[..position]
        invariant FirstBad(was, ids, 0) == FirstBad(was, ids, position)
      {
        var id := ids[position];
        TakeOneMore(ids, position);
        if id !in manual {
          return Err(UnknownRule);
        }
        if id in seen {
          return Err(DuplicateRule);
        }
        seen := seen + {id};
        SetPosition(manual[id], position);
      }
      TakeAll(ids);
      if !persisted {
        Restore(previous);
        return Err(NotPersisted);
      }
      return Ok(());
    }

    method SetPosition(index: nat, position: int)
      requires Valid() && index < size
      modifies data
      ensures Rules() == Placed(old(Rules()), Some(index), position)
    {
      data[index] := data[index].(position := position);
    }
  }
}
