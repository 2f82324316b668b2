/**
 Reordering the manual rules: what an accepted order does, and what a refused one
 leaves behind, up to the deletion that closes the positions up again.
 */
module RoutingOrder {
  import opened Common
  import opened RoutingRules

  /** The manual rule of `ids[j]` has position `j`. */
  predicate StandsAt(rules: seq<Rule>, was: seq<Rule>, ids: seq<RuleId>, j: nat)
    requires j < |ids| && |rules| == |was|
  {
    ManualAt(was, ids[j]).Some? && rules[ManualAt(was, ids[j]).value].position == j
  }

  ghost predicate AllGood(rules: seq<Rule>, ids: seq<RuleId>) {
    forall j :: 0 <= j < |ids| ==> Objection(rules, ids, j).None?
  }

  lemma GoodPrefix(rules: seq<Rule>, ids: seq<RuleId>, k: nat)
    requires k <= |ids| && forall j :: 0 <= j < k ==> Objection(rules, ids, j).None?
    ensures AllGood(rules, ids[..k])
  {
    forall j | 0 <= j < k ensures Objection(rules, ids[..k], j).None? {
      assert Objection(rules, ids, j).None?;
      assert ids[..k][..j] == ids[..j] && ids[..k][j] == ids[j];
    }
  }

  /** Good entries each place their own rule, and nothing else changes. */
  lemma {:induction false} PlacedFacts(rules: seq<Rule>, ids: seq<RuleId>)
    requires AllGood(rules, ids)
    ensures
      var v := PlacedAll(rules, ids);
      && (forall j :: 0 <= j < |ids| ==> StandsAt(v, rules, ids, j))
      && (forall i :: 0 <= i < |rules| ==> v[i].(position := 0) == rules[i].(position := 0))
      && (forall i :: 0 <= i < |rules| && !(rules[i].origin == Manual && rules[i].id in ids) ==> v[i] == rules[i])
    decreases |ids|
  {
    if ids != [] {
      var rest, last := ids[..|ids| - 1], ids[|ids| - 1];
      GoodPrefix(rules, ids, |rest|);
      PlacedFacts(rules, rest);
      SplitLast(ids);
      assert Objection(rules, ids, |rest|).None?;
      forall j | 0 <= j < |rest| ensures ids[j] == rest[j] && ids[j] != last {}
      forall j | 0 <= j < |rest| ensures StandsAt(PlacedAll(rules, ids), rules, ids, j) {
        assert StandsAt(PlacedAll(rules, rest), rules, rest, j);
      }
    }
  }

  lemma {:induction false} ManualAtFinds(rules: seq<Rule>, id: RuleId)
    ensures ManualAt(rules, id).Some? <==> id in ManualIds(rules)
    decreases |rules|
  {
    if rules != [] {
      var rest, last := rules[..|rules| - 1], rules[|rules| - 1];
      ManualAtFinds(rest, id);
      if id in ManualIds(rules) {
        var i :| 0 <= i < |rules| && rules[i].origin == Manual && rules[i].id == id;
        assert i < |rest| ==> rest[i] == rules[i];
      }
      if id in ManualIds(rest) {
        var i :| 0 <= i < |rest| && rest[i].origin == Manual && rest[i].id == id;
        assert rules[i] == rest[i];
      }
    }
  }

  lemma {:induction false} GoodIdsAreMany(rules: seq<Rule>, ids: seq<RuleId>)
    requires AllGood(rules, ids)
    ensures (set id | id in ids) <= ManualIds(rules) && |set id | id in ids| == |ids|
    decreases |ids|
  {
    if ids != [] {
      var rest, last := ids[..|ids| - 1], ids[|ids| - 1];
      GoodPrefix(rules, ids, |rest|);
      GoodIdsAreMany(rules, rest);
      assert Objection(rules, ids, |rest|).None?;
      ManualAtFinds(rules, last);
      SplitLast(ids);
      assert (set id | id in ids) == (set id | id in rest) + {last};
    }
  }

  lemma FullSubset(a: set<RuleId>, b: set<RuleId>)
    requires a <= b && |a| == |b|
    ensures a == b
  {
    if a != b {
      var x :| x in b && x !in a;
      SubsetSize(a, b - {x});
    }
  }

  /** An accepted order lists every manual rule once, gives each its place, and touches nothing else. */
  lemma AcceptedOrderIsAPermutation(rules: seq<Rule>, ids: seq<RuleId>)
    requires Reordered(rules, ids).1.None?
    ensures
      var v := Reordered(rules, ids).0;
      && (set id | id in ids) == ManualIds(rules) && |ids| == |ManualIds(rules)|
      && (forall j :: 0 <= j < |ids| ==> StandsAt(v, rules, ids, j))
      && (forall i :: 0 <= i < |rules| ==> v[i].(position := 0) == rules[i].(position := 0))
      && (forall i :: 0 <= i < |rules| && rules[i].origin != Manual ==> v[i] == rules[i])
  {
    assert AllGood(rules, ids);
    GoodIdsAreMany(rules, ids);
    FullSubset((set id | id in ids), ManualIds(rules));
    PlacedFacts(rules, ids);
  }

  /** The ids are those of the manual rules, each once. */
  ghost predicate ListsManual(rules: seq<Rule>, ids: seq<RuleId>) {
    Distinct(ids) && forall id :: id in ids <==> id in ManualIds(rules)
  }

  lemma {:induction false} DistinctIdsAreMany(ids: seq<RuleId>)
    requires Distinct(ids)
    ensures |set id | id in ids| == |ids|
    decreases |ids|
  {
    if ids == [] {
      assert (set id | id in ids) == {};
    } else {
      var rest, last := ids[..|ids| - 1], ids[|ids| - 1];
      SplitLast(ids);
      DistinctMore(rest, last);
      DistinctIdsAreMany(rest);
      assert (set id | id in ids) == (set id | id in rest) + {last};
    }
  }

  /** Every order that lists each manual rule once is accepted, and no other. */
  lemma OrderAcceptedExactly(rules: seq<Rule>, ids: seq<RuleId>)
    ensures Reordered(rules, ids).1.None? <==> ListsManual(rules, ids)
  {
    if Reordered(rules, ids).1.None? {
      AcceptedOrderIsAPermutation(rules, ids);
      GoodIdsAreDistinct(rules, ids);
      forall id ensures id in ids <==> id in ManualIds(rules) {
        assert id in (set x | x in ids) <==> id in ids;
      }
    }
    if ListsManual(rules, ids) {
      DistinctIdsAreMany(ids);
      assert (set id | id in ids) == ManualIds(rules);
      ListedAreGood(rules, ids);
    }
  }

  lemma GoodIdsAreDistinct(rules: seq<Rule>, ids: seq<RuleId>)
    requires AllGood(rules, ids)
    ensures Distinct(ids)
  {
    forall i, j | 0 <= i < j < |ids| ensures ids[i] != ids[j] {
      assert Objection(rules, ids, j).None?;
      assert ids[..j][i] == ids[i];
    }
  }

  lemma ListedAreGood(rules: seq<Rule>, ids: seq<RuleId>)
    requires ListsManual(rules, ids)
    ensures AllGood(rules, ids) && FirstBad(rules, ids, 0) == |ids|
  {
    forall j | 0 <= j < |ids| ensures Objection(rules, ids, j).None? {
      ManualAtFinds(rules, ids[j]);
      assert ids[j] in ids;
    }
  }

  /** Why an order is refused: it has the wrong length, or an entry names no manual rule or repeats one before it. */
  lemma OrderRefusedFor(rules: seq<Rule>, ids: seq<RuleId>)
    requires Reordered(rules, ids).1.Some?
    ensures
      match Reordered(rules, ids).1.value
      case WrongLength => |ids| != |ManualIds(rules)|
      case UnknownRule => exists j :: 0 <= j < |ids| && ids[j] !in ManualIds(rules)
      case DuplicateRule => !Distinct(ids)
      case _ => false
  {
    var bad := FirstBad(rules, ids, 0);
    if bad < |ids| {
      ManualAtFinds(rules, ids[bad]);
      if ids[bad] in ids[..bad] {
        var i :| 0 <= i < bad && ids[..bad][i] == ids[bad];
        assert ids[i] == ids[bad];
      }
    }
  }

  /** A refused order leaves the rules as they were iff the entries before the bad one were in place already. */
  lemma RefusedOrderIsHarmlessExactly(rules: seq<Rule>, ids: seq<RuleId>)
    requires |ids| == |ManualIds(rules)| && FirstBad(rules, ids, 0) < |ids|
    ensures
      Reordered(rules, ids).0 == rules <==>
        forall j :: 0 <= j < FirstBad(rules, ids, 0) ==> StandsAt(rules, rules, ids, j)
  {
    var bad := FirstBad(rules, ids, 0);
    var good := ids[..bad];
    GoodPrefix(rules, ids, bad);
    PlacedFacts(rules, good);
    var v := PlacedAll(rules, good);
    if v == rules {
      forall j | 0 <= j < bad ensures StandsAt(rules, rules, ids, j) {
        assert StandsAt(v, rules, good, j);
      }
    } else if forall j :: 0 <= j < bad ==> StandsAt(rules, rules, ids, j) {
      forall j | 0 <= j < |good| ensures StandsAt(rules, rules, good, j) {
        assert StandsAt(rules, rules, ids, j);
      }
      InPlaceStays(rules, good);
    }
  }

  lemma {:induction false} InPlaceStays(rules: seq<Rule>, ids: seq<RuleId>)
    requires forall j :: 0 <= j < |ids| ==> StandsAt(rules, rules, ids, j)
    ensures PlacedAll(rules, ids) == rules
    decreases |ids|
  {
    if ids != [] {
      var rest := ids[..|ids| - 1];
      forall j | 0 <= j < |rest| ensures StandsAt(rules, rules, rest, j) {
        assert StandsAt(rules, rules, ids, j);
      }
      InPlaceStays(rules, rest);
      assert StandsAt(rules, rules, ids, |rest|);
    }
  }

  function Example(id: string, position: int): Rule {
    Rule(Random(id), id, true, Manual, "", "", [], "direct", true, "", "", position)
  }

  /** So a refused order can leave two rules at one position. */
  lemma RefusedOrderCanTie()
    ensures
      var rules, ids := [Example("a", 0), Example("b", 1)], [Random("b"), Random("x")];
      && Reordered(rules, ids).1 == Some(UnknownRule)
      && Reordered(rules, ids).0 == [Example("a", 0), Example("b", 0)]
  {
    var rules, ids := [Example("a", 0), Example("b", 1)], [Random("b"), Random("x")];
    assert rules[..1] == [Example("a", 0)] && rules[..1][..0] == [];
    assert ManualAt(rules[..1], Random("x")).None?;
    assert ManualAt(rules, Random("b")) == Some(1) && ManualAt(rules, Random("x")).None?;
    assert rules[0].id == Random("a") && rules[1].id == Random("b");
    assert ManualIds(rules) == {Random("a"), Random("b")};
    assert ids[..0] == [] && Objection(rules, ids, 0).None? && Objection(rules, ids, 1) == Some(UnknownRule);
    assert ids[..1] == [Random("b")] && ids[..1][..0] == [];
    assert FirstBad(rules, ids, 0) == 1;
    assert PlacedAll(rules, ids[..1]) == rules[1 := Example("b", 0)];
  }

  // ----- closing up after a deletion

  /** How many manual rules stand before a position. */
  function Rank(rules: seq<Rule>, position: int): nat
    decreases |rules|
  {
    if rules == [] then 0
    else
      var last := rules[|rules| - 1];
      Rank(rules[..|rules| - 1], position) + if last.origin == Manual && last.position < position then 1 else 0
  }

  /** Only the positions of the rules that were sorted change, and each gets its place in the order. */
  lemma {:induction false} NumberedFacts(rules: seq<Rule>, order: seq<nat>)
    requires Within(rules, order)
    ensures
      var v := Numbered(rules, order);
      && (forall k :: 0 <= k < |rules| ==> v[k].(position := 0) == rules[k].(position := 0))
      && (forall k: nat :: k < |rules| && k !in order ==> v[k] == rules[k])
      && (Distinct(order) ==> forall j :: 0 <= j < |order| ==> v[order[j]].position == j)
    decreases |order|
  {
    if order != [] {
      var rest, last := order[..|order| - 1], order[|order| - 1];
      NumberedFacts(rules, rest);
      SplitLast(order);
      DistinctMore(rest, last);
      forall j | 0 <= j < |rest| ensures order[j] == rest[j] {}
    }
  }

  /** The manual rules before a position. */
  function Before(rules: seq<Rule>, position: int): set<nat> {
    set i: nat | i < |rules| && rules[i].origin == Manual && rules[i].position < position
  }

  lemma {:induction false} RankCounts(rules: seq<Rule>, position: int)
    ensures |Before(rules, position)| == Rank(rules, position)
    decreases |rules|
  {
    if rules == [] {
      assert Before(rules, position) == {};
    } else {
      var n := |rules| - 1;
      RankCounts(rules[..n], position);
      var last := if IsManual(rules, n) && rules[n].position < position then {n} else {};
      assert Before(rules, position) == Before(rules[..n], position) + last;
    }
  }

  /** The first `n` of the sorted rules. */
  function Front(order: seq<nat>, n: nat): set<nat>
    requires n <= |order|
  {
    set j | 0 <= j < n :: order[j]
  }

  lemma {:induction false} FrontSize(order: seq<nat>, n: nat)
    requires n <= |order| && Distinct(order)
    ensures |Front(order, n)| == n
  {
    if n > 0 {
      FrontSize(order, n - 1);
      assert order[n - 1] !in Front(order, n - 1);
      assert Front(order, n) == Front(order, n - 1) + {order[n - 1]};
    }
  }

  /** A rule's new position counts those before it, and some of those that share its position. */
  lemma NewPositionIsRank(rules: seq<Rule>, order: seq<nat>, j: nat)
    requires SortsManual(rules, order) && j < |order|
    ensures Rank(rules, rules[order[j]].position) <= j < Rank(rules, rules[order[j]].position + 1)
  {
    var p := rules[order[j]].position;
    RankCounts(rules, p);
    RankCounts(rules, p + 1);
    FrontSize(order, j);
    FrontSize(order, j + 1);
    forall i: nat | i in Before(rules, p) ensures i in Front(order, j) {
      assert IsManual(rules, i);
      var m :| 0 <= m < |order| && order[m] == i;
    }
    SubsetSize(Before(rules, p), Front(order, j));
    SubsetSize(Front(order, j + 1), Before(rules, p + 1));
  }

  lemma ItsPlace(rules: seq<Rule>, order: seq<nat>, i: nat)
    requires SortsManual(rules, order) && IsManual(rules, i)
    ensures
      var p := Numbered(rules, order)[i].position;
      0 <= p < |order| && order[p] == i
  {
    NumberedFacts(rules, order);
    var j :| 0 <= j < |order| && order[j] == i;
  }

  /**
   However the sort treats equal positions: after a deletion the manual rules have the positions 0, 1, 2, ...,
   each once, and a rule that stood before another still does.
   */
  lemma PositionsCloseUp(rules: seq<Rule>, order: seq<nat>, i: nat, k: nat)
    requires SortsManual(rules, order) && IsManual(rules, i) && IsManual(rules, k)
    ensures
      var v := Numbered(rules, order);
      && 0 <= v[i].position < |order| && (v[i].position == v[k].position ==> i == k)
      && Rank(rules, rules[i].position) <= v[i].position < Rank(rules, rules[i].position + 1)
      && (rules[i].position < rules[k].position ==> v[i].position < v[k].position)
  {
    ItsPlace(rules, order, i);
    ItsPlace(rules, order, k);
    NewPositionIsRank(rules, order, Numbered(rules, order)[i].position);
  }

  ghost predicate Has(rules: seq<Rule>, id: RuleId) {
    exists i :: 0 <= i < |rules| && rules[i].id == id
  }

  /** A deletion is refused exactly for an unknown rule and for one that is not the user's. */
  lemma DeletedExactly(rules: seq<Rule>, id: RuleId, order: seq<nat>)
    requires CanDelete(rules, id) ==> SortsManual(Removed(rules, IndexOf(rules, id)), order)
    ensures
      var d, i := Deleted(rules, id, order), IndexOf(rules, id);
      && (d == Err(NotFound) <==> !Has(rules, id))
      && (d == Err(OnlyManual) <==> i < |rules| && rules[i].origin != Manual)
      && (d.Ok? <==> IsManual(rules, i))
  {
    var i := IndexOf(rules, id);
    assert i < |rules| ==> rules[i].id == id;
  }

  /** Rule `k` of those that are left when rule `i` is taken out. */
  function Left(rules: seq<Rule>, i: nat, k: nat): Rule
    requires i < |rules| && k < |rules| - 1
  {
    rules[if k < i then k else k + 1]
  }

  lemma LeftIsRemoved(rules: seq<Rule>, i: nat, k: nat)
    requires i < |rules| && k < |rules| - 1
    ensures |Removed(rules, i)| == |rules| - 1 && Removed(rules, i)[k] == Left(rules, i, k)
  {
  }

  lemma DeletedIsNumbered(rules: seq<Rule>, id: RuleId, order: seq<nat>)
    requires CanDelete(rules, id) && SortsManual(Removed(rules, IndexOf(rules, id)), order)
    ensures Deleted(rules, id, order) == Ok(Numbered(Removed(rules, IndexOf(rules, id)), order))
  {
  }

  /** The rules that a deletion leaves are the others, in their order and as they were but for manual positions. */
  lemma DeletionLeavesTheOthers(rules: seq<Rule>, id: RuleId, order: seq<nat>, k: nat)
    requires CanDelete(rules, id) && SortsManual(Removed(rules, IndexOf(rules, id)), order) && k < |rules| - 1
    ensures Deleted(rules, id, order).Ok?
    ensures
      var v, was := Deleted(rules, id, order).value, Left(rules, IndexOf(rules, id), k);
      && |v| == |rules| - 1 && v[k].(position := was.position) == was
      && (was.origin != Manual ==> v[k] == was)
  {
    var left := Removed(rules, IndexOf(rules, id));
    NumberedFacts(left, order);
    LeftIsRemoved(rules, IndexOf(rules, id), k);
    DeletedIsNumbered(rules, id, order);
    assert Numbered(left, order)[k].(position := 0) == left[k].(position := 0);
    if !IsManual(left, k) {
      assert k !in order;
    }
  }

  /** After a deletion manual rules have the positions 0, 1, 2, ..., each once, in the order that they had. */
  lemma DeletionClosesUp(rules: seq<Rule>, id: RuleId, order: seq<nat>, k: nat, m: nat)
    requires CanDelete(rules, id) && SortsManual(Removed(rules, IndexOf(rules, id)), order)
    requires k < |rules| - 1 && m < |rules| - 1
    requires Left(rules, IndexOf(rules, id), k).origin == Manual && Left(rules, IndexOf(rules, id), m).origin == Manual
    ensures
      var v, i := Deleted(rules, id, order).value, IndexOf(rules, id);
      && |v| == |rules| - 1 && 0 <= v[k].position < |order|
      && (v[k].position == v[m].position ==> k == m)
      && (Left(rules, i, k).position < Left(rules, i, m).position ==> v[k].position < v[m].position)
  {
    var left := Removed(rules, IndexOf(rules, id));
    LeftIsRemoved(rules, IndexOf(rules, id), k);
    LeftIsRemoved(rules, IndexOf(rules, id), m);
    DeletedIsNumbered(rules, id, order);
    PositionsCloseUp(left, order, k, m);
  }

  ghost predicate StandsAlone(rules: seq<Rule>, i: nat)
    requires i < |rules|
  {
    forall k: nat :: IsManual(rules, k) && rules[k].position == rules[i].position ==> k == i
  }

  lemma AloneMeansRank(rules: seq<Rule>, i: nat)
    requires IsManual(rules, i) && StandsAlone(rules, i)
    ensures Rank(rules, rules[i].position + 1) == Rank(rules, rules[i].position) + 1
  {
    var p := rules[i].position;
    RankCounts(rules, p);
    RankCounts(rules, p + 1);
    forall k: nat | k in Before(rules, p + 1) && k !in Before(rules, p) ensures k == i {
      assert IsManual(rules, k);
    }
    assert Before(rules, p + 1) == Before(rules, p) + {i};
  }

  function Swapped(order: seq<nat>, a: nat, b: nat): seq<nat>
    requires a < |order| && b < |order|
  {
    order[a := order[b]][b := order[a]]
  }

  lemma SwapKeepsElements(order: seq<nat>, a: nat, b: nat, i: nat)
    requires a < |order| && b < |order|
    ensures i in Swapped(order, a, b) <==> i in order
  {
    var other := Swapped(order, a, b);
    if i in order {
      var m :| 0 <= m < |order| && order[m] == i;
      assert other[if m == a then b else if m == b then a else m] == i;
    }
  }

  lemma SwapStaysDistinct(order: seq<nat>, a: nat, b: nat)
    requires Distinct(order) && a < |order| && b < |order|
    ensures Distinct(Swapped(order, a, b))
  {
  }

  lemma SwapStaysSorted(rules: seq<Rule>, order: seq<nat>, a: nat, b: nat)
    requires SortsManual(rules, order) && a < |order| && b < |order|
    requires rules[order[a]].position == rules[order[b]].position
    ensures SortsManual(rules, Swapped(order, a, b))
  {
    var other := Swapped(order, a, b);
    SwapStaysDistinct(order, a, b);
    forall i: nat | IsManual(rules, i) ensures i in other {
      SwapKeepsElements(order, a, b, i);
    }
    forall m | 0 <= m < |order|
      ensures IsManual(rules, other[m]) && rules[other[m]].position == rules[order[m]].position
    {
    }
    assert Within(rules, other);
  }

  lemma SharedIsOpen(rules: seq<Rule>, order: seq<nat>, i: nat, k: nat)
    requires SortsManual(rules, order) && IsManual(rules, i) && IsManual(rules, k) && i != k
    requires rules[k].position == rules[i].position
    ensures
      exists other :: SortsManual(rules, other)
          && Numbered(rules, other)[i].position != Numbered(rules, order)[i].position
  {
    ItsPlace(rules, order, i);
    ItsPlace(rules, order, k);
    var a, b := Numbered(rules, order)[i].position, Numbered(rules, order)[k].position;
    SwapStaysSorted(rules, order, a, b);
    ItsPlace(rules, Swapped(order, a, b), i);
    assert Swapped(order, a, b)[a] == k;
  }

  lemma AloneIsDetermined(rules: seq<Rule>, order: seq<nat>, i: nat)
    requires SortsManual(rules, order) && IsManual(rules, i) && StandsAlone(rules, i)
    ensures Numbered(rules, order)[i].position == Rank(rules, rules[i].position)
  {
    AloneMeansRank(rules, i);
    ItsPlace(rules, order, i);
    NewPositionIsRank(rules, order, Numbered(rules, order)[i].position);
  }

  /** The sort decides where a rule ends up exactly if another one shares its position. */
  lemma PositionIsDeterminedExactly(rules: seq<Rule>, order: seq<nat>, i: nat)
    requires SortsManual(rules, order) && IsManual(rules, i)
    ensures
      StandsAlone(rules, i) <==>
        forall other :: SortsManual(rules, other) ==>
          Numbered(rules, other)[i].position == Numbered(rules, order)[i].position
  {
    if StandsAlone(rules, i) {
      forall other | SortsManual(rules, other)
        ensures Numbered(rules, other)[i].position == Numbered(rules, order)[i].position
      {
        AloneIsDetermined(rules, other, i);
        AloneIsDetermined(rules, order, i);
      }
    } else {
      var k: nat :| IsManual(rules, k) && rules[k].position == rules[i].position && k != i;
      SharedIsOpen(rules, order, i, k);
    }
  }
}
