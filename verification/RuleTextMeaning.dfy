/**
 What a rule text means, read off its lines without following the parser: which texts are
 accepted, where the first mistake is, and which rule an accepted text stands for.
 */
module RuleTextMeaning {
  import opened Common
  import opened RuleText
  import RuleTextRoundTrip

  // ----- one line

  /** `line` is `k`, the first equals sign, and `v`. */
  predicate Cut(line: string, k: string, v: string) {
    line == k + ['='] + v && '=' !in k && k != []
  }

  /** The line, less the space around its parts, is `key` = `value`. */
  ghost predicate Says(raw: string, key: string, value: string) {
    !Ignored(Trim(raw)) && exists k, v :: Cut(Trim(raw), k, v) && Trim(k) == key && Trim(v) == value
  }

  lemma {:induction false} IndexOfFacts(s: string, c: char)
    ensures IndexOf(s, c) == -1 ==> c !in s
    ensures IndexOf(s, c) >= 0 ==> s[IndexOf(s, c)] == c && c !in s[..IndexOf(s, c)]
  {
    if s != [] && s[0] != c {
      IndexOfFacts(s[1..], c);
      var i := IndexOf(s[1..], c);
      assert s == [s[0]] + s[1..];
      if i >= 0 {
        assert s[..i + 1] == [s[0]] + s[1..][..i];
      }
    }
  }

  predicate HasPair(raw: string) {
    !Ignored(Trim(raw)) && IndexOf(Trim(raw), '=') >= 1
  }

  function KeyAt(raw: string): string
    requires HasPair(raw)
  {
    Trim(Trim(raw)[..IndexOf(Trim(raw), '=')])
  }

  function ValueAt(raw: string): string
    requires HasPair(raw)
  {
    Trim(Trim(raw)[IndexOf(Trim(raw), '=') + 1..])
  }

  /** A line says at most one thing, and it is the text in front of and behind its first equals sign. */
  lemma SaysExactly(raw: string, key: string, value: string)
    ensures Says(raw, key, value) <==> HasPair(raw) && KeyAt(raw) == key && ValueAt(raw) == value
  {
    var line := Trim(raw);
    IndexOfFacts(line, '=');
    if Says(raw, key, value) {
      var k, v :| Cut(line, k, v) && Trim(k) == key && Trim(v) == value;
      IndexOfAfter(k, '=', v);
      assert line[..|k|] == k && line[|k| + 1..] == v;
    }
    if HasPair(raw) {
      var i := IndexOf(line, '=');
      assert Cut(line, line[..i], line[i + 1..]);
    }
  }

  const TRUE_WORDS := ["true", "1", "on", "是", "开", "启用"]
  const FALSE_WORDS := ["false", "0", "off", "否", "关", "禁用"]

  ghost predicate FlagMeans(value: string, flag: bool) {
    Lower(value) in (if flag then TRUE_WORDS else FALSE_WORDS)
  }

  ghost predicate ActionMeans(value: string, action: Action) {
    match action
    case Proxy => Lower(value) in ["proxy", "代理"]
    case Direct => Lower(value) in ["direct", "直连"]
    case Block => Lower(value) in ["block", "阻断"]
  }

  /** The words of flags and actions, in any letter case, and no others. */
  lemma WordsExactly(value: string)
    requires Trimmed(value)
    ensures forall flag :: ParseFlag(value) == Some(flag) <==> FlagMeans(value, flag)
    ensures forall action :: ParseAction(value) == Some(action) <==> ActionMeans(value, action)
  {
    TrimTrimmed(value);
    var word := Lower(value);
    assert "true" in TRUE_WORDS && word in FALSE_WORDS ==> word !in TRUE_WORDS;
    assert "代理" != "直连" && "代理" != "阻断" && "直连" != "阻断";
  }

  // ----- all lines

  /** What the lines with this key give, in order. */
  ghost function Given(lines: seq<string>, key: string): seq<string>
    decreases |lines|
  {
    if lines == [] then []
    else
      var before, last := Given(lines[..|lines| - 1], key), lines[|lines| - 1];
      if HasPair(last) && KeyAt(last) == key then before + [ValueAt(last)] else before
  }

  /** The keys of the conditions, in order and as often as they stand there. */
  ghost function ConditionKeys(lines: seq<string>): seq<string>
    decreases |lines|
  {
    if lines == [] then []
    else
      var before, last := ConditionKeys(lines[..|lines| - 1]), lines[|lines| - 1];
      if HasPair(last) && FindKind(KeyAt(last)).Some? then before + [KeyAt(last)] else before
  }

  /** The values in a list of texts, one text after the other. */
  ghost function AllValues(texts: seq<string>): seq<string>
    decreases |texts|
  {
    if texts == [] then [] else AllValues(texts[..|texts| - 1]) + SplitValues(texts[|texts| - 1])
  }

  ghost predicate GoodValue(key: string, value: string) {
    if key == "name" then value != []
    else if key == "enabled" then exists flag :: FlagMeans(value, flag)
    else if key == "action" then exists action :: ActionMeans(value, action)
    else if key == "ip_is_private" then FlagMeans(value, true)
    else FindKind(key).Some? && SplitValues(value) != []
  }

  /** The line is empty, a comment, or a known key with a value of its kind. */
  ghost predicate GoodLine(raw: string) {
    Ignored(Trim(raw)) || (HasPair(raw) && GoodValue(KeyAt(raw), ValueAt(raw)))
  }

  /** Nothing is wrong with these lines so far. */
  ghost predicate GoodLines(lines: seq<string>) {
    && (forall i :: 0 <= i < |lines| ==> GoodLine(lines[i]))
    && |Given(lines, "name")| <= 1 && |Given(lines, "enabled")| <= 1 && |Given(lines, "action")| <= 1
  }

  function Keys(conditions: seq<Condition>): seq<string> {
    seq(|conditions|, i requires 0 <= i < |conditions| => KeyOf(conditions[i].kind))
  }

  /** The conditions are those of the lines: a kind and a value of a kind come out where they first stand. */
  ghost predicate ConditionsOf(conditions: seq<Condition>, lines: seq<string>) {
    && Keys(conditions) == Dedup(ConditionKeys(lines))
    && forall c :: c in conditions ==>
        c.values == if c.kind == IpIsPrivate then [] else Dedup(AllValues(Given(lines, KeyOf(c.kind))))
  }

  ghost predicate DraftOfLines(d: Draft, lines: seq<string>) {
    && Given(lines, "name") == (if d.name.None? then [] else [d.name.value])
    && (d.enabled.None? ==> Given(lines, "enabled") == [])
    && (d.enabled.Some? ==> exists v :: Given(lines, "enabled") == [v] && FlagMeans(v, d.enabled.value))
    && (d.action.None? ==> Given(lines, "action") == [])
    && (d.action.Some? ==> exists v :: Given(lines, "action") == [v] && ActionMeans(v, d.action.value))
    && ConditionsOf(d.conditions, lines)
  }

  lemma GivenMore(lines: seq<string>, raw: string, key: string)
    ensures Given(lines + [raw], key) ==
        Given(lines, key) + if HasPair(raw) && KeyAt(raw) == key then [ValueAt(raw)] else []
    ensures ConditionKeys(lines + [raw]) ==
        ConditionKeys(lines) + if HasPair(raw) && FindKind(KeyAt(raw)).Some? then [KeyAt(raw)] else []
  {
    DropLast(lines, raw);
  }

  lemma DedupMore(items: seq<string>, x: string)
    ensures Dedup(items + [x]) == if x in Dedup(items) then Dedup(items) else Dedup(items) + [x]
  {
    DropLast(items, x);
  }

  lemma DedupStep(a: seq<string>, rest: seq<string>, x: string)
    requires Dedup(Dedup(a) + rest) == Dedup(a + rest)
    ensures Dedup(Dedup(a) + (rest + [x])) == Dedup(a + (rest + [x]))
  {
    DedupMore(a + rest, x);
    DedupMore(Dedup(a) + rest, x);
    assert a + (rest + [x]) == a + rest + [x] && Dedup(a) + (rest + [x]) == Dedup(a) + rest + [x];
  }

  /** Repeats may be dropped from the front part first. */
  lemma {:induction false} DedupInParts(a: seq<string>, b: seq<string>)
    ensures Dedup(Dedup(a) + b) == Dedup(a + b)
    decreases |b|
  {
    if b == [] {
      DedupFacts(a);
      DedupFacts(Dedup(a));
      assert a + b == a && Dedup(a) + b == Dedup(a);
    } else {
      DedupInParts(a, b[..|b| - 1]);
      DedupStep(a, b[..|b| - 1], b[|b| - 1]);
      SplitLast(b);
    }
  }

  /** Dropping repeats keeps the first of each: a longer list only adds at the end. */
  lemma {:induction false} DedupKeepsFirsts(items: seq<string>, i: nat)
    requires i <= |items|
    ensures Dedup(items[..i]) <= Dedup(items)
    ensures Distinct(Dedup(items)) && forall x :: x in Dedup(items) <==> x in items
    decreases |items|
  {
    DedupFacts(items);
    if i == |items| {
      TakeAll(items);
    } else {
      var rest := items[..|items| - 1];
      DedupKeepsFirsts(rest, i);
      assert rest[..i] == items[..i];
    }
  }

  // ----- one condition line

  lemma KindFacts(kind: Kind)
    ensures FindKind(KeyOf(kind)) == Some(kind)
    ensures KeyOf(kind) != "name" && KeyOf(kind) != "enabled" && KeyOf(kind) != "action"
    ensures KeyOf(kind) == "ip_is_private" <==> kind == IpIsPrivate
  {
  }

  lemma FoundKind(key: string)
    ensures FindKind(key).Some? ==> KeyOf(FindKind(key).value) == key
    ensures FindKind("name") == None && FindKind("enabled") == None && FindKind("action") == None
    ensures FindKind("ip_is_private") == Some(IpIsPrivate)
  {
  }

  lemma SameKey(a: Kind, b: Kind)
    ensures KeyOf(a) == KeyOf(b) <==> a == b
  {
    KindFacts(a);
    KindFacts(b);
  }

  lemma KeysInParts(conditions: seq<Condition>)
    requires conditions != []
    ensures Keys(conditions) == [KeyOf(conditions[0].kind)] + Keys(conditions[1..])
    ensures Distinct(Keys(conditions)) ==>
        KeyOf(conditions[0].kind) !in Keys(conditions[1..]) && Distinct(Keys(conditions[1..]))
  {
    var all, rest := Keys(conditions), Keys(conditions[1..]);
    if Distinct(all) {
      forall i | 0 <= i < |rest| ensures rest[i] != all[0] {
        assert all[i + 1] == rest[i];
      }
      forall i, j | 0 <= i < j < |rest| ensures rest[i] != rest[j] {
        assert all[i + 1] == rest[i] && all[j + 1] == rest[j];
      }
    }
  }

  lemma KeysWithFirst(c: Condition, rest: seq<Condition>)
    ensures Keys([c] + rest) == [KeyOf(c.kind)] + Keys(rest)
  {
    KeysInParts([c] + rest);
    assert ([c] + rest)[1..] == rest;
  }

  lemma KeyOfMember(conditions: seq<Condition>, c: Condition)
    requires c in conditions
    ensures KeyOf(c.kind) in Keys(conditions)
  {
    var i :| 0 <= i < |conditions| && conditions[i] == c;
    assert Keys(conditions)[i] == KeyOf(c.kind);
  }

  /** Setting the values of a kind puts a new one last. */
  lemma {:induction false} SetValuesKeys(conditions: seq<Condition>, kind: Kind, values: seq<string>)
    ensures Keys(SetValues(conditions, kind, values)) ==
        if KeyOf(kind) in Keys(conditions) then Keys(conditions) else Keys(conditions) + [KeyOf(kind)]
  {
    if conditions == [] {
      assert Keys([]) == [];
    } else {
      var rest := conditions[1..];
      KeysInParts(conditions);
      SameKey(conditions[0].kind, kind);
      if conditions[0].kind == kind {
        KeysWithFirst(Condition(kind, values), rest);
      } else {
        SetValuesKeys(rest, kind, values);
        KeysWithFirst(conditions[0], SetValues(rest, kind, values));
      }
    }
  }

  /** Setting the values of a kind changes that kind alone. */
  lemma {:induction false} SetValuesChangesOne(conditions: seq<Condition>, kind: Kind, values: seq<string>,
      c: Condition)
    requires Distinct(Keys(conditions)) && c in SetValues(conditions, kind, values)
    ensures if c.kind == kind then c.values == values else c in conditions
  {
    if conditions != [] {
      var rest := conditions[1..];
      KeysInParts(conditions);
      if conditions[0].kind == kind {
        if c in rest {
          KeyOfMember(rest, c);
        }
      } else if c in SetValues(rest, kind, values) {
        SetValuesChangesOne(rest, kind, values, c);
      }
    }
  }

  lemma {:induction false} ValuesOfExactly(conditions: seq<Condition>, kind: Kind)
    ensures KeyOf(kind) !in Keys(conditions) ==> ValuesOf(conditions, kind) == []
    ensures KeyOf(kind) in Keys(conditions) ==> Condition(kind, ValuesOf(conditions, kind)) in conditions
  {
    if conditions != [] {
      SameKey(conditions[0].kind, kind);
      assert Keys(conditions)[0] == KeyOf(conditions[0].kind);
      assert Keys(conditions) == [KeyOf(conditions[0].kind)] + Keys(conditions[1..]);
      ValuesOfExactly(conditions[1..], kind);
    }
  }

  lemma {:induction false} GivenIffKey(lines: seq<string>, kind: Kind)
    ensures KeyOf(kind) in ConditionKeys(lines) <==> Given(lines, KeyOf(kind)) != []
    decreases |lines|
  {
    KindFacts(kind);
    if lines != [] {
      GivenIffKey(lines[..|lines| - 1], kind);
    }
  }

  /** After one more condition line the conditions are again those of the lines. */
  lemma ConditionsOfMore(conditions: seq<Condition>, lines: seq<string>, raw: string, kind: Kind, values: seq<string>)
    requires ConditionsOf(conditions, lines)
    requires HasPair(raw) && KeyAt(raw) == KeyOf(kind)
    requires values == if kind == IpIsPrivate then [] else Dedup(AllValues(Given(lines + [raw], KeyOf(kind))))
    ensures ConditionsOf(SetValues(conditions, kind, values), lines + [raw])
  {
    var after := SetValues(conditions, kind, values);
    KindFacts(kind);
    DedupFacts(ConditionKeys(lines));
    SetValuesKeys(conditions, kind, values);
    GivenMore(lines, raw, KeyOf(kind));
    DedupMore(ConditionKeys(lines), KeyOf(kind));
    forall c | c in after
      ensures c.values == if c.kind == IpIsPrivate then [] else Dedup(AllValues(Given(lines + [raw], KeyOf(c.kind))))
    {
      SetValuesChangesOne(conditions, kind, values, c);
      SameKey(c.kind, kind);
      GivenMore(lines, raw, KeyOf(c.kind));
    }
  }

  lemma AllValuesMore(texts: seq<string>, text: string)
    ensures AllValues(texts + [text]) == AllValues(texts) + SplitValues(text)
  {
    DropLast(texts, text);
  }

  /** The values so far, then those of one more line. */
  lemma ValuesSoFar(conditions: seq<Condition>, lines: seq<string>, raw: string, kind: Kind)
    requires ConditionsOf(conditions, lines) && kind != IpIsPrivate
    requires HasPair(raw) && KeyAt(raw) == KeyOf(kind)
    ensures Dedup(ValuesOf(conditions, kind) + SplitValues(ValueAt(raw))) ==
        Dedup(AllValues(Given(lines + [raw], KeyOf(kind))))
  {
    var key := KeyOf(kind);
    var texts := Given(lines, key);
    GivenMore(lines, raw, key);
    AllValuesMore(texts, ValueAt(raw));
    ValuesOfExactly(conditions, kind);
    DedupFacts(ConditionKeys(lines));
    GivenIffKey(lines, kind);
    assert ValuesOf(conditions, kind) == Dedup(AllValues(texts));
    DedupInParts(AllValues(texts), SplitValues(ValueAt(raw)));
  }

  lemma OtherLine(conditions: seq<Condition>, lines: seq<string>, raw: string)
    requires ConditionsOf(conditions, lines)
    requires HasPair(raw) ==> FindKind(KeyAt(raw)).None?
    ensures ConditionsOf(conditions, lines + [raw])
  {
    GivenMore(lines, raw, "");
    forall c | c in conditions ensures Given(lines + [raw], KeyOf(c.kind)) == Given(lines, KeyOf(c.kind)) {
      KindFacts(c.kind);
      GivenMore(lines, raw, KeyOf(c.kind));
    }
  }

  lemma ConditionLineIsRead(d: Draft, lines: seq<string>, raw: string)
    requires ConditionsOf(d.conditions, lines)
    requires HasPair(raw) && FindKind(KeyAt(raw)).Some?
    ensures
      var r := ParseCondition(d, FindKind(KeyAt(raw)).value, ValueAt(raw));
      && (r.Ok? <==> GoodValue(KeyAt(raw), ValueAt(raw)))
      && (r.Ok? ==> r.value == d.(conditions := r.value.conditions))
      && (r.Ok? ==> ConditionsOf(r.value.conditions, lines + [raw]))
  {
    var kind, value := FindKind(KeyAt(raw)).value, ValueAt(raw);
    FoundKind(KeyAt(raw));
    KindFacts(kind);
    TrimFacts(Trim(raw)[IndexOf(Trim(raw), '=') + 1..]);
    WordsExactly(value);
    if kind == IpIsPrivate {
      ConditionsOfMore(d.conditions, lines, raw, kind, []);
    } else {
      ValuesSoFar(d.conditions, lines, raw, kind);
      ConditionsOfMore(d.conditions, lines, raw, kind, Dedup(AllValues(Given(lines + [raw], KeyOf(kind)))));
    }
  }

  // ----- one more line

  lemma MoreGood(lines: seq<string>, raw: string)
    requires GoodLines(lines)
    ensures GoodLines(lines + [raw]) <==>
        && GoodLine(raw)
        && |Given(lines + [raw], "name")| <= 1 && |Given(lines + [raw], "enabled")| <= 1
        && |Given(lines + [raw], "action")| <= 1
  {
    assert (lines + [raw])[|lines|] == raw;
  }

  predicate IsHead(key: string) {
    key == "name" || key == "enabled" || key == "action"
  }

  /** What any line of the three first keys leaves alone. */
  lemma HeadLine(d: Draft, lines: seq<string>, raw: string)
    requires GoodLines(lines) && DraftOfLines(d, lines)
    requires HasPair(raw) && IsHead(KeyAt(raw))
    ensures forall key :: IsHead(key) && key != KeyAt(raw) ==> Given(lines + [raw], key) == Given(lines, key)
    ensures Given(lines + [raw], KeyAt(raw)) == Given(lines, KeyAt(raw)) + [ValueAt(raw)]
    ensures ConditionsOf(d.conditions, lines + [raw])
    ensures GoodLines(lines + [raw]) <==>
        GoodValue(KeyAt(raw), ValueAt(raw)) && Given(lines, KeyAt(raw)) == []
  {
    GivenMore(lines, raw, "name");
    GivenMore(lines, raw, "enabled");
    GivenMore(lines, raw, "action");
    MoreGood(lines, raw);
    FoundKind(KeyAt(raw));
    OtherLine(d.conditions, lines, raw);
  }

  lemma NameLineIsRead(d: Draft, lines: seq<string>, raw: string)
    requires GoodLines(lines) && DraftOfLines(d, lines)
    requires HasPair(raw) && KeyAt(raw) == "name"
    ensures ParseLine(d, raw).Ok? <==> GoodLines(lines + [raw])
    ensures ParseLine(d, raw).Ok? ==> DraftOfLines(ParseLine(d, raw).value, lines + [raw])
  {
    assert ParseLine(d, raw) == ParsePair(d, "name", ValueAt(raw));
    HeadLine(d, lines, raw);
  }

  lemma FlagLineIsRead(d: Draft, lines: seq<string>, raw: string)
    requires GoodLines(lines) && DraftOfLines(d, lines)
    requires HasPair(raw) && KeyAt(raw) == "enabled"
    ensures ParseLine(d, raw).Ok? <==> GoodLines(lines + [raw])
    ensures ParseLine(d, raw).Ok? ==> DraftOfLines(ParseLine(d, raw).value, lines + [raw])
  {
    assert ParseLine(d, raw) == ParsePair(d, "enabled", ValueAt(raw));
    HeadLine(d, lines, raw);
    TrimFacts(Trim(raw)[IndexOf(Trim(raw), '=') + 1..]);
    WordsExactly(ValueAt(raw));
  }

  lemma ActionIsRead(d: Draft, value: string)
    requires Trimmed(value)
    ensures ParsePair(d, "action", value).Ok? <==> d.action.None? && GoodValue("action", value)
    ensures ParsePair(d, "action", value).Ok? ==>
        && ParsePair(d, "action", value).value == d.(action := ParseAction(value))
        && ParseAction(value).Some? && ActionMeans(value, ParseAction(value).value)
  {
    WordsExactly(value);
  }

  lemma ActionLineIsRead(d: Draft, lines: seq<string>, raw: string)
    requires GoodLines(lines) && DraftOfLines(d, lines)
    requires HasPair(raw) && KeyAt(raw) == "action"
    ensures ParseLine(d, raw).Ok? <==> GoodLines(lines + [raw])
    ensures ParseLine(d, raw).Ok? ==> DraftOfLines(ParseLine(d, raw).value, lines + [raw])
  {
    assert ParseLine(d, raw) == ParsePair(d, "action", ValueAt(raw));
    HeadLine(d, lines, raw);
    TrimFacts(Trim(raw)[IndexOf(Trim(raw), '=') + 1..]);
    ActionIsRead(d, ValueAt(raw));
  }

  lemma ConditionLineInTheText(d: Draft, lines: seq<string>, raw: string)
    requires GoodLines(lines) && DraftOfLines(d, lines)
    requires HasPair(raw) && FindKind(KeyAt(raw)).Some?
    ensures ParseLine(d, raw).Ok? <==> GoodLines(lines + [raw])
    ensures ParseLine(d, raw).Ok? ==> DraftOfLines(ParseLine(d, raw).value, lines + [raw])
  {
    FoundKind(KeyAt(raw));
    KindFacts(FindKind(KeyAt(raw)).value);
    GivenMore(lines, raw, "name");
    GivenMore(lines, raw, "enabled");
    GivenMore(lines, raw, "action");
    MoreGood(lines, raw);
    ConditionLineIsRead(d, lines, raw);
  }

  lemma OtherLineIsRead(d: Draft, lines: seq<string>, raw: string)
    requires GoodLines(lines) && DraftOfLines(d, lines)
    requires HasPair(raw) ==> !IsHead(KeyAt(raw)) && FindKind(KeyAt(raw)).None?
    ensures ParseLine(d, raw).Ok? <==> GoodLines(lines + [raw])
    ensures ParseLine(d, raw).Ok? ==> DraftOfLines(ParseLine(d, raw).value, lines + [raw])
  {
    GivenMore(lines, raw, "name");
    GivenMore(lines, raw, "enabled");
    GivenMore(lines, raw, "action");
    MoreGood(lines, raw);
    FoundKind("");
    OtherLine(d.conditions, lines, raw);
  }

  /** One more line is taken iff nothing is wrong with it, and what is known then is what the lines say. */
  lemma LineIsRead(d: Draft, lines: seq<string>, raw: string)
    requires GoodLines(lines) && DraftOfLines(d, lines)
    ensures ParseLine(d, raw).Ok? <==> GoodLines(lines + [raw])
    ensures ParseLine(d, raw).Ok? ==> DraftOfLines(ParseLine(d, raw).value, lines + [raw])
  {
    if HasPair(raw) && KeyAt(raw) == "name" {
      NameLineIsRead(d, lines, raw);
    } else if HasPair(raw) && KeyAt(raw) == "enabled" {
      FlagLineIsRead(d, lines, raw);
    } else if HasPair(raw) && KeyAt(raw) == "action" {
      ActionLineIsRead(d, lines, raw);
    } else if HasPair(raw) && FindKind(KeyAt(raw)).Some? {
      ConditionLineInTheText(d, lines, raw);
    } else {
      OtherLineIsRead(d, lines, raw);
    }
  }

  /** What the parser has read of a prefix. */
  ghost predicate ReadSoFar(lines: seq<string>) {
    var r := ParseLines(EMPTY, lines, 1);
    && (r.Ok? <==> GoodLines(lines))
    && (r.Ok? ==> DraftOfLines(r.value, lines))
  }

  lemma ParseOne(d: Draft, raw: string, number: nat)
    ensures ParseLine(d, raw).Ok? ==> ParseLines(d, [raw], number) == Ok(ParseLine(d, raw).value)
    ensures ParseLine(d, raw).Err? ==> ParseLines(d, [raw], number).Err?
  {
    assert [raw][1..] == [];
  }

  lemma ParseOneMore(lines: seq<string>, raw: string)
    requires ParseLines(EMPTY, lines, 1).Ok?
    ensures
      var d := ParseLines(EMPTY, lines, 1).value;
      && (ParseLine(d, raw).Ok? ==> ParseLines(EMPTY, lines + [raw], 1) == Ok(ParseLine(d, raw).value))
      && (ParseLine(d, raw).Err? ==> ParseLines(EMPTY, lines + [raw], 1).Err?)
  {
    RuleTextRoundTrip.ParseInParts(EMPTY, lines, [raw], 1);
    ParseOne(ParseLines(EMPTY, lines, 1).value, raw, 1 + |lines|);
  }

  lemma {:induction false} ErrorStays(d: Draft, a: seq<string>, b: seq<string>, number: nat)
    requires ParseLines(d, a, number).Err?
    ensures ParseLines(d, a + b, number) == ParseLines(d, a, number)
    decreases |a|
  {
    assert (a + b)[1..] == a[1..] + b;
    if ParseLine(d, a[0]).Ok? {
      ErrorStays(ParseLine(d, a[0]).value, a[1..], b, number + 1);
    }
  }

  lemma GoodPrefix(lines: seq<string>, raw: string)
    requires GoodLines(lines + [raw])
    ensures GoodLines(lines)
  {
    forall i | 0 <= i < |lines| ensures GoodLine(lines[i]) {
      assert (lines + [raw])[i] == lines[i];
    }
    GivenMore(lines, raw, "name");
    GivenMore(lines, raw, "enabled");
    GivenMore(lines, raw, "action");
  }

  lemma {:induction false} LinesAreRead(lines: seq<string>)
    ensures ReadSoFar(lines)
    decreases |lines|
  {
    if lines == [] {
      assert Keys([]) == [];
    } else {
      var before, raw := lines[..|lines| - 1], lines[|lines| - 1];
      SplitLast(lines);
      LinesAreRead(before);
      if ParseLines(EMPTY, before, 1).Ok? {
        ParseOneMore(before, raw);
        LineIsRead(ParseLines(EMPTY, before, 1).value, before, raw);
        assert lines[|lines| - 1] == raw;
      } else {
        ErrorStays(EMPTY, before, [raw], 1);
        if GoodLines(lines) {
          GoodPrefix(before, raw);
        }
      }
    }
  }

  // ----- the whole text

  /** Nothing is wrong with a line, and name, action and a condition are there. */
  ghost predicate GoodText(lines: seq<string>) {
    GoodLines(lines) && Given(lines, "name") != [] && Given(lines, "action") != [] && ConditionKeys(lines) != []
  }

  /** The rule these lines stand for; a rule is on where they do not say. */
  ghost predicate Means(lines: seq<string>, rule: Rule) {
    && Given(lines, "name") == [rule.name]
    && (exists v :: Given(lines, "action") == [v] && ActionMeans(v, rule.action))
    && (if Given(lines, "enabled") == [] then rule.enabled
        else exists v :: Given(lines, "enabled") == [v] && FlagMeans(v, rule.enabled))
    && ConditionsOf(rule.conditions, lines)
  }

  /** A text is accepted iff it is good, and then it parses to the rule that its lines stand for. */
  lemma TextMeansExactly(text: string)
    ensures ParseRule(text).Ok? <==> GoodText(Lines(text))
    ensures ParseRule(text).Ok? ==> Means(Lines(text), ParseRule(text).value)
  {
    var lines := Lines(text);
    LinesAreRead(lines);
    DedupFacts(ConditionKeys(lines));
    if ParseLines(EMPTY, lines, 1).Ok? {
      var d := ParseLines(EMPTY, lines, 1).value;
      assert d.conditions == [] <==> Keys(d.conditions) == [];
      assert ConditionKeys(lines) != [] ==> ConditionKeys(lines)[0] in Dedup(ConditionKeys(lines));
    }
  }

  /** The lines before number `k`, from 0, are taken, and this one is not, for this reason. */
  ghost predicate StopsAt(d: Draft, lines: seq<string>, number: nat, k: int, reason: Reason) {
    && 0 <= k < |lines| && ParseLines(d, lines[..k], number).Ok?
    && ParseLine(ParseLines(d, lines[..k], number).value, lines[k]) == Err(reason)
  }

  lemma StopsLater(d: Draft, lines: seq<string>, number: nat, k: int, reason: Reason)
    requires lines != [] && ParseLine(d, lines[0]).Ok?
    requires StopsAt(ParseLine(d, lines[0]).value, lines[1..], number + 1, k, reason)
    ensures StopsAt(d, lines, number, k + 1, reason)
  {
    assert lines[..k + 1][1..] == lines[1..][..k] && lines[..k + 1][0] == lines[0];
  }

  lemma {:induction false} ErrorIsAtLine(d: Draft, lines: seq<string>, number: nat)
    requires ParseLines(d, lines, number).Err?
    ensures
      var e := ParseLines(d, lines, number).error;
      e.AtLine? && StopsAt(d, lines, number, e.line - number, e.reason)
    decreases |lines|
  {
    if ParseLine(d, lines[0]).Ok? {
      var next := ParseLine(d, lines[0]).value;
      ErrorIsAtLine(next, lines[1..], number + 1);
      var e := ParseLines(d, lines, number).error;
      StopsLater(d, lines, number, e.line - number - 1, e.reason);
    } else {
      assert lines[..0] == [];
    }
  }

  /** What is wrong with this line, after these. */
  ghost predicate Fits(reason: Reason, lines: seq<string>, raw: string) {
    if !HasPair(raw) then reason == NotKeyValue
    else
      var key, value := KeyAt(raw), ValueAt(raw);
      match reason
      case NotKeyValue => false
      case Repeated(k) => k == key && IsHead(key) && Given(lines, key) != []
      case EmptyName => key == "name" && Given(lines, key) == [] && value == []
      case BadFlag =>
        && (key == "ip_is_private" || (key == "enabled" && Given(lines, key) == []))
        && !FlagMeans(value, true) && !FlagMeans(value, false)
      case BadAction => key == "action" && Given(lines, key) == [] && forall action :: !ActionMeans(value, action)
      case UnknownKey(k) => k == key && !IsHead(key) && FindKind(key).None?
      case PrivateMustBeTrue => key == "ip_is_private" && FlagMeans(value, false)
      case NoValues(k) => k == key && key != "ip_is_private" && FindKind(key).Some? && SplitValues(value) == []
  }

  lemma HeadReasonFits(d: Draft, lines: seq<string>, raw: string)
    requires DraftOfLines(d, lines) && HasPair(raw) && IsHead(KeyAt(raw)) && Trimmed(ValueAt(raw))
    requires ParsePair(d, KeyAt(raw), ValueAt(raw)).Err?
    ensures Fits(ParsePair(d, KeyAt(raw), ValueAt(raw)).error, lines, raw)
  {
    WordsExactly(ValueAt(raw));
  }

  lemma ConditionReasonFits(d: Draft, lines: seq<string>, raw: string)
    requires HasPair(raw) && FindKind(KeyAt(raw)).Some? && Trimmed(ValueAt(raw))
    requires ParseCondition(d, FindKind(KeyAt(raw)).value, ValueAt(raw)).Err?
    ensures Fits(ParseCondition(d, FindKind(KeyAt(raw)).value, ValueAt(raw)).error, lines, raw)
  {
    FoundKind(KeyAt(raw));
    WordsExactly(ValueAt(raw));
  }

  /** The reason given for a line that is not taken is what is wrong with it. */
  lemma ReasonFits(d: Draft, lines: seq<string>, raw: string)
    requires DraftOfLines(d, lines) && ParseLine(d, raw).Err?
    ensures Fits(ParseLine(d, raw).error, lines, raw)
  {
    if HasPair(raw) {
      TrimFacts(Trim(raw)[IndexOf(Trim(raw), '=') + 1..]);
      FoundKind(KeyAt(raw));
      assert ParseLine(d, raw) == ParsePair(d, KeyAt(raw), ValueAt(raw));
      if IsHead(KeyAt(raw)) {
        HeadReasonFits(d, lines, raw);
      } else if FindKind(KeyAt(raw)).Some? {
        ConditionReasonFits(d, lines, raw);
      }
    }
  }

  /** The first line with which the lines are not good any more, and why. */
  ghost predicate FirstWrong(lines: seq<string>, n: nat, reason: Reason) {
    && 1 <= n <= |lines| && GoodLines(lines[..n - 1]) && !GoodLines(lines[..n])
    && Fits(reason, lines[..n - 1], lines[n - 1])
  }

  lemma StopIsFirstWrong(lines: seq<string>, k: int, reason: Reason)
    requires StopsAt(EMPTY, lines, 1, k, reason)
    ensures FirstWrong(lines, k + 1, reason)
  {
    LinesAreRead(lines[..k]);
    LinesAreRead(lines[..k + 1]);
    ParseOneMore(lines[..k], lines[k]);
    TakeOneMore(lines, k);
    ReasonFits(ParseLines(EMPTY, lines[..k], 1).value, lines[..k], lines[k]);
  }

  /** An error names the first line with which the lines are not good any more, and what is wrong there. */
  lemma FirstMistake(text: string)
    ensures
      ParseRule(text).Err? && ParseRule(text).error.AtLine? ==>
        FirstWrong(Lines(text), ParseRule(text).error.line, ParseRule(text).error.reason)
  {
    var lines := Lines(text);
    if ParseLines(EMPTY, lines, 1).Err? {
      ErrorIsAtLine(EMPTY, lines, 1);
      var e := ParseRule(text).error;
      StopIsFirstWrong(lines, e.line - 1, e.reason);
    }
  }

  /** An error without a line means that all lines are good, but the name, the action or the conditions are missing. */
  lemma SomethingIsMissing(text: string)
    requires ParseRule(text).Err? && !ParseRule(text).error.AtLine?
    ensures
      var lines := Lines(text);
      GoodLines(lines) && match ParseRule(text).error
      case MissingName => Given(lines, "name") == []
      case MissingAction => Given(lines, "name") != [] && Given(lines, "action") == []
      case NoConditions => Given(lines, "name") != [] && Given(lines, "action") != [] && ConditionKeys(lines) == []
  {
    var lines := Lines(text);
    LinesAreRead(lines);
    DedupFacts(ConditionKeys(lines));
    if ParseLines(EMPTY, lines, 1).Err? {
      ErrorIsAtLine(EMPTY, lines, 1);
    } else {
      var d := ParseLines(EMPTY, lines, 1).value;
      assert d.conditions == [] <==> Keys(d.conditions) == [];
      assert ConditionKeys(lines) != [] ==> ConditionKeys(lines)[0] in Dedup(ConditionKeys(lines));
    }
  }

  // ----- words and values

  /** The two are the same letter, or the same but for its case. */
  predicate SameLetter(a: char, b: char) {
    || a == b
    || ('A' <= a <= 'Z' && b as int == a as int + 32)
    || ('A' <= b <= 'Z' && a as int == b as int + 32)
    || {a, b} <= {'k', 'K', '\U{212A}'}
  }

  ghost predicate SameButCase(a: string, b: string) {
    |a| == |b| && forall i :: 0 <= i < |a| ==> SameLetter(a[i], b[i])
  }

  /** The case of Latin letters does not matter in a flag or an action. */
  lemma CaseDoesNotMatter(a: string, b: string)
    requires Trimmed(a) && Trimmed(b) && SameButCase(a, b)
    ensures ParseFlag(a) == ParseFlag(b) && ParseAction(a) == ParseAction(b)
  {
    TrimTrimmed(a);
    TrimTrimmed(b);
    assert Lower(a) == Lower(b);
  }

  /** Values stand between commas of either width. */
  lemma {:induction false} CommasSplit(v: string, comma: char, rest: string)
    requires comma == ',' || comma == '，'
    requires ',' !in v && '，' !in v && '\n' !in v
    ensures Pieces(v + [comma] + rest) == [v] + Pieces(rest)
  {
    var s := v + [comma] + rest;
    if v == [] {
      assert s[1..] == rest;
    } else {
      assert v[0] in v;
      assert s[1..] == v[1..] + [comma] + rest;
      CommasSplit(v[1..], comma, rest);
      assert v == [v[0]] + v[1..];
    }
  }

  /** Some piece is this value once the space around it is gone. */
  ghost predicate HasPiece(pieces: seq<string>, v: string) {
    exists k :: 0 <= k < |pieces| && Trim(pieces[k]) == v
  }

  lemma HasPieceInParts(pieces: seq<string>, v: string)
    requires pieces != []
    ensures HasPiece(pieces, v) <==> Trim(pieces[0]) == v || HasPiece(pieces[1..], v)
  {
    var rest := pieces[1..];
    if k :| 0 <= k < |rest| && Trim(rest[k]) == v {
      assert Trim(pieces[k + 1]) == v;
    }
    if k :| 0 <= k < |pieces| && Trim(pieces[k]) == v {
      assert k > 0 ==> rest[k - 1] == pieces[k];
    }
  }

  /** The values are the pieces without the space around them; empty ones are left out. */
  lemma {:induction false} CleanedExactly(pieces: seq<string>, v: string)
    ensures v in Cleaned(pieces) <==> v != [] && HasPiece(pieces, v)
  {
    if pieces != [] {
      HasPieceInParts(pieces, v);
      CleanedExactly(pieces[1..], v);
    }
  }

  ghost function OneCleaned(piece: string): seq<string> {
    if Trim(piece) == [] then [] else [Trim(piece)]
  }

  lemma CleanedFirst(piece: string, rest: seq<string>)
    ensures Cleaned([piece] + rest) == OneCleaned(piece) + Cleaned(rest)
  {
    assert ([piece] + rest)[0] == piece && ([piece] + rest)[1..] == rest;
  }

  lemma CleanedStep(piece: string, a: seq<string>, b: seq<string>)
    requires Cleaned(a + b) == Cleaned(a) + Cleaned(b)
    ensures Cleaned([piece] + a + b) == Cleaned([piece] + a) + Cleaned(b)
  {
    CleanedFirst(piece, a + b);
    CleanedFirst(piece, a);
    Regrouped([piece], a, b);
    Regrouped(OneCleaned(piece), Cleaned(a), Cleaned(b));
  }

  /** They stay in the order of the pieces. */
  lemma {:induction false} CleanedInParts(a: seq<string>, b: seq<string>)
    ensures Cleaned(a + b) == Cleaned(a) + Cleaned(b)
  {
    if a == [] {
      assert a + b == b;
    } else {
      CleanedInParts(a[1..], b);
      CleanedStep(a[0], a[1..], b);
      assert [a[0]] + a[1..] == a;
    }
  }

  // ----- pools

  /** The segments with a separator between any two. */
  ghost function Glued(segments: seq<seq<string>>): seq<string>
    requires segments != []
    decreases |segments|
  {
    var last := segments[|segments| - 1];
    if |segments| == 1 then last else Glued(segments[..|segments| - 1]) + [SEPARATOR] + last
  }

  /** Each separator without the space around it. */
  ghost function Plain(lines: seq<string>): seq<string> {
    seq(|lines|, i requires 0 <= i < |lines| => if Trim(lines[i]) == SEPARATOR then SEPARATOR else lines[i])
  }

  lemma GluedInParts(before: seq<seq<string>>, last: seq<string>)
    ensures Glued(before + [last]) == if before == [] then last else Glued(before) + [SEPARATOR] + last
  {
    DropLast(before, last);
  }

  lemma Regrouped<T>(a: seq<T>, b: seq<T>, c: seq<T>)
    ensures a + (b + c) == a + b + c
  {
  }

  lemma GluedLonger(segments: seq<seq<string>>, line: string)
    requires segments != []
    ensures Glued(segments[..|segments| - 1] + [segments[|segments| - 1] + [line]]) == Glued(segments) + [line]
  {
    var before, last := segments[..|segments| - 1], segments[|segments| - 1];
    SplitLast(segments);
    GluedInParts(before, last);
    GluedInParts(before, last + [line]);
    if before != [] {
      Regrouped(Glued(before) + [SEPARATOR], last, [line]);
    }
  }

  lemma GluedMore(segments: seq<seq<string>>)
    requires segments != []
    ensures Glued(segments + [[]]) == Glued(segments) + [SEPARATOR]
  {
    GluedInParts(segments, []);
  }

  lemma PlainMore(rest: seq<string>, line: string)
    ensures Plain(rest + [line]) == Plain(rest) + [if Trim(line) == SEPARATOR then SEPARATOR else line]
  {
  }

  /** The segments are the lines between the separators: glued together they are the text. */
  lemma {:induction false} SegmentsExactly(lines: seq<string>)
    ensures Glued(Segments(lines)) == Plain(lines)
    decreases |lines|
  {
    if lines != [] {
      var rest, line := lines[..|lines| - 1], lines[|lines| - 1];
      SegmentsExactly(rest);
      SplitLast(lines);
      PlainMore(rest, line);
      if Trim(line) == SEPARATOR {
        GluedMore(Segments(rest));
      } else {
        GluedLonger(Segments(rest), line);
      }
    }
  }

  ghost predicate NoneIn(segment: seq<string>) {
    forall i :: 0 <= i < |segment| ==> Trim(segment[i]) != SEPARATOR
  }

  /** No segment holds a separator. */
  lemma {:induction false} NoneSeparates(lines: seq<string>)
    ensures forall x :: x in Segments(lines) ==> NoneIn(x)
    decreases |lines|
  {
    if lines != [] {
      var before, line := Segments(lines[..|lines| - 1]), lines[|lines| - 1];
      NoneSeparates(lines[..|lines| - 1]);
      assert before[|before| - 1] in before;
      assert Trim(line) != SEPARATOR ==> NoneIn(before[|before| - 1] + [line]);
    }
  }

  /** The segments of rules are those with a line that is neither empty nor a comment, in order. */
  lemma {:induction false} RuleSegmentsExactly(segments: seq<seq<string>>, i: nat)
    requires i <= |segments|
    ensures forall x :: x in RuleSegments(segments) <==> x in segments && Meaningful(x)
    ensures RuleSegments(segments) == RuleSegments(segments[..i]) + RuleSegments(segments[i..])
    decreases |segments|
  {
    if segments == [] {
      assert segments[..i] == [] && segments[i..] == [];
    } else {
      var rest, last := segments[..|segments| - 1], segments[|segments| - 1];
      SplitLast(segments);
      RuleSegmentsExactly(rest, if i == |segments| then |rest| else i);
      if i == |segments| {
        assert segments[..i] == segments && segments[i..] == [];
      } else {
        assert segments[..i] == rest[..i] && segments[i..][..|segments| - i - 1] == rest[i..];
      }
    }
  }

  ghost predicate EachParses(segments: seq<seq<string>>, rules: seq<Rule>) {
    |rules| == |segments| && forall k :: 0 <= k < |segments| ==> ParseRule(Join(segments[k])) == Ok(rules[k])
  }

  /** `e` is the error of rule number `n`, and the rules before it are fine. */
  ghost predicate FirstBad(segments: seq<seq<string>>, n: nat, e: Error) {
    && 1 <= n <= |segments| && ParseRule(Join(segments[n - 1])) == Err(e)
    && forall k :: 0 <= k < n - 1 ==> ParseRule(Join(segments[k])).Ok?
  }

  lemma EachParsesMore(segments: seq<seq<string>>, rules: seq<Rule>, segment: seq<string>, rule: Rule)
    requires EachParses(segments, rules) && ParseRule(Join(segment)) == Ok(rule)
    ensures EachParses(segments + [segment], rules + [rule])
  {
  }

  lemma LastIsBad(segments: seq<seq<string>>, rules: seq<Rule>, segment: seq<string>, e: Error)
    requires EachParses(segments, rules) && ParseRule(Join(segment)) == Err(e)
    ensures FirstBad(segments + [segment], |segments| + 1, e)
  {
  }

  lemma StaysBad(segments: seq<seq<string>>, n: nat, e: Error, segment: seq<string>)
    requires FirstBad(segments, n, e)
    ensures FirstBad(segments + [segment], n, e)
  {
  }

  /** A pool is accepted iff each of its rules is, and then it is these rules; an error names the first bad one. */
  lemma {:induction false} ParsedSegmentsExactly(segments: seq<seq<string>>)
    ensures
      match ParseSegments(segments)
      case Ok(rules) => EachParses(segments, rules)
      case Err(InRule(n, e)) => FirstBad(segments, n, e)
    decreases |segments|
  {
    if segments != [] {
      var rest, last := segments[..|segments| - 1], segments[|segments| - 1];
      SplitLast(segments);
      ParsedSegmentsExactly(rest);
      match ParseSegments(rest) {
        case Err(InRule(n, e)) => StaysBad(rest, n, e, last);
        case Ok(rules) =>
          match ParseRule(Join(last)) {
            case Ok(rule) => EachParsesMore(rest, rules, last, rule);
            case Err(e) => LastIsBad(rest, rules, last, e);
          }
      }
    }
  }

  // ----- what is printed besides the rule

  lemma PrintedLines(lines: seq<string>)
    requires lines != [] && forall i :: 0 <= i < |lines| ==> '\n' !in lines[i]
    ensures Lines(Join(lines) + "\n") == ChompAll(lines) + [""]
  {
    RuleTextRoundTrip.FinalBreak(lines);
    LinesOfJoin(lines, "");
  }

  /**
   The printed text of a rule ends with the lines of its upstream source, each behind a hash and a space; a
   carriage return that is left at the end of one is lost with the line break.
   */
  lemma SourceIsQuoted(rule: Rule, source: string, i: nat)
    requires RuleTextRoundTrip.Accepted(rule) && source != [] && i < |Lines(source)|
    ensures
      var lines, n := Lines(SerializeRule(rule, source)), |rule.conditions|;
      && |lines| == 9 + n + |Lines(source)| && lines[|lines| - 1] == ""
      && lines[8 + n + i] == Chomp("# " + Lines(source)[i])
  {
    var header, body, tail := RULE_HEADER, BodyLines(rule), TailLines(rule, source);
    var all := header + body + tail;
    RuleTextRoundTrip.RuleHeaderIsHashed();
    RuleTextRoundTrip.TailIsHashed(rule, source);
    RuleTextRoundTrip.BodyIsChomped(rule);
    PrintedLines(all);
    assert all[8 + |rule.conditions| + i] == tail[2 + i];
  }
}
