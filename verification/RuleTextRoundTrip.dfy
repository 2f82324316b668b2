/**
 The printer and the parser of rule text undo each other: what the parser accepts
 from any text is recovered exactly from its printed form, alone or in a pool.
 */
module RuleTextRoundTrip {
  import opened Common
  import opened RuleText

  /** What the parser produces, and what the printer can print without loss. */
  ghost predicate Accepted(rule: Rule) {
    CleanName(rule.name) && rule.conditions != [] && CleanConditions(rule.conditions)
  }

  ghost predicate CleanName(name: string) {
    name != [] && Trimmed(name) && '\n' !in name
  }

  ghost predicate CleanCondition(c: Condition) {
    if c.kind == IpIsPrivate then c.values == []
    else c.values != [] && CleanValues(c.values) && Distinct(c.values)
  }

  ghost predicate CleanConditions(conditions: seq<Condition>) {
    && (forall i :: 0 <= i < |conditions| ==> CleanCondition(conditions[i]))
    && (forall i, j :: 0 <= i < j < |conditions| ==> conditions[i].kind != conditions[j].kind)
  }

  ghost predicate CleanDraft(d: Draft) {
    (d.name.Some? ==> CleanName(d.name.value)) && CleanConditions(d.conditions)
  }

  // ----- everything the parser accepts is clean

  ghost predicate HasKind(conditions: seq<Condition>, kind: Kind) {
    exists i :: 0 <= i < |conditions| && conditions[i].kind == kind
  }

  lemma {:induction false} SetValuesAddsOne(conditions: seq<Condition>, kind: Kind, values: seq<string>, other: Kind)
    ensures HasKind(SetValues(conditions, kind, values), other) ==> other == kind || HasKind(conditions, other)
  {
    var after := SetValues(conditions, kind, values);
    if conditions != [] && HasKind(after, other) {
      var i :| 0 <= i < |after| && after[i].kind == other;
      if conditions[0].kind != kind && i > 0 {
        assert SetValues(conditions[1..], kind, values)[i - 1].kind == other;
        SetValuesAddsOne(conditions[1..], kind, values, other);
        if other != kind {
          var k :| 0 <= k < |conditions[1..]| && conditions[1..][k].kind == other;
          assert conditions[k + 1].kind == other;
        }
      } else if i > 0 {
        assert after[i] == conditions[i];
      } else {
        assert other == kind || conditions[0].kind == other;
      }
    }
  }

  lemma {:induction false} SetValuesStaysClean(conditions: seq<Condition>, kind: Kind, values: seq<string>)
    requires CleanConditions(conditions) && CleanCondition(Condition(kind, values))
    ensures CleanConditions(SetValues(conditions, kind, values))
  {
    if conditions != [] && conditions[0].kind != kind {
      var rest := SetValues(conditions[1..], kind, values);
      SetValuesStaysClean(conditions[1..], kind, values);
      SetValuesAddsOne(conditions[1..], kind, values, conditions[0].kind);
      assert !HasKind(conditions[1..], conditions[0].kind);
      forall j | 0 <= j < |rest| ensures rest[j].kind != conditions[0].kind {
        assert rest[j].kind == conditions[0].kind ==> HasKind(rest, conditions[0].kind);
      }
    }
  }

  lemma {:induction false} ValuesOfAreClean(conditions: seq<Condition>, kind: Kind)
    requires CleanConditions(conditions)
    ensures CleanValues(ValuesOf(conditions, kind))
  {
    if conditions != [] {
      assert CleanCondition(conditions[0]);
      ValuesOfAreClean(conditions[1..], kind);
    }
  }

  lemma ConditionStaysClean(d: Draft, kind: Kind, value: string)
    requires CleanDraft(d) && ParseCondition(d, kind, value).Ok?
    ensures CleanDraft(ParseCondition(d, kind, value).value)
  {
    if kind == IpIsPrivate {
      SetValuesStaysClean(d.conditions, kind, []);
    } else {
      var values := SplitValues(value);
      SplitValuesAreClean(value);
      ValuesOfAreClean(d.conditions, kind);
      var all := ValuesOf(d.conditions, kind) + values;
      DedupFacts(all);
      assert values[0] in all && values[0] in Dedup(all);
      SetValuesStaysClean(d.conditions, kind, Dedup(all));
    }
  }

  lemma LineStaysClean(d: Draft, raw: string)
    requires CleanDraft(d) && '\n' !in raw && ParseLine(d, raw).Ok?
    ensures CleanDraft(ParseLine(d, raw).value)
  {
    var line := Trim(raw);
    TrimFacts(raw);
    if !Ignored(line) {
      var separator := IndexOf(line, '=');
      var key, value := Trim(line[..separator]), Trim(line[separator + 1..]);
      TrimFacts(line[separator + 1..]);
      assert forall c :: c in value ==> c in line;
      if FindKind(key).Some? && key != "name" && key != "enabled" && key != "action" {
        ConditionStaysClean(d, FindKind(key).value, value);
      }
    }
  }

  lemma {:induction false} LinesStayClean(d: Draft, lines: seq<string>, number: nat)
    requires CleanDraft(d) && forall i :: 0 <= i < |lines| ==> '\n' !in lines[i]
    requires ParseLines(d, lines, number).Ok?
    ensures CleanDraft(ParseLines(d, lines, number).value)
    decreases |lines|
  {
    if lines != [] {
      LineStaysClean(d, lines[0]);
      LinesStayClean(ParseLine(d, lines[0]).value, lines[1..], number + 1);
    }
  }

  lemma ParsedRuleIsAccepted(text: string)
    ensures ParseRule(text).Ok? ==> Accepted(ParseRule(text).value)
  {
    LinesHaveNoNewline(text);
    if ParseLines(EMPTY, Lines(text), 1).Ok? {
      LinesStayClean(EMPTY, Lines(text), 1);
    }
  }

  // ----- parsing what was printed, line by line

  lemma {:induction false} ParseInParts(d: Draft, a: seq<string>, b: seq<string>, number: nat)
    requires ParseLines(d, a, number).Ok?
    ensures ParseLines(d, a + b, number) == ParseLines(ParseLines(d, a, number).value, b, number + |a|)
    decreases |a|
  {
    if a == [] {
      assert a + b == b;
    } else {
      assert (a + b)[1..] == a[1..] + b;
      ParseInParts(ParseLine(d, a[0]).value, a[1..], b, number + 1);
    }
  }

  /** A line that the parser skips. */
  ghost predicate IsComment(line: string) {
    '\n' !in line && Ignored(Trim(line))
  }

  ghost predicate AllComments(lines: seq<string>) {
    forall i :: 0 <= i < |lines| ==> IsComment(lines[i])
  }

  lemma {:induction false} CommentsAreSkipped(d: Draft, lines: seq<string>, number: nat)
    requires AllComments(lines)
    ensures ParseLines(d, lines, number) == Ok(d)
    decreases |lines|
  {
    if lines != [] {
      CommentsAreSkipped(d, lines[1..], number + 1);
    }
  }

  /** A printed line: it stays as it is through trimming and through the line break. */
  ghost predicate IsPair(line: string, key: string, value: string) {
    && line == key + ['='] + value
    && key != [] && value != [] && Trimmed(key) && Trimmed(value)
    && '=' !in key && key[0] != '#' && key[0] != '-' && '\n' !in key && '\n' !in value
  }

  lemma PairIsParsed(d: Draft, line: string, key: string, value: string)
    requires IsPair(line, key, value)
    ensures ParseLine(d, line) == ParsePair(d, key, value)
    ensures Trim(line) == line && Chomp(line) == line && '\n' !in line && !Ignored(line) && line != "---"
  {
    assert line[0] == key[0] && line[|line| - 1] == value[|value| - 1];
    TrimTrimmed(line);
    TrimTrimmed(key);
    TrimTrimmed(value);
    IndexOfAfter(key, '=', value);
    assert line[..|key|] == key && line[|key| + 1..] == value;
  }

  /** A key or a word of the format: small letters and underscores. */
  ghost predicate IsWord(s: string) {
    s != [] && forall i :: 0 <= i < |s| ==> s[i] == '_' || 'a' <= s[i] <= 'z'
  }

  lemma WordFacts(s: string)
    requires IsWord(s)
    ensures Trimmed(s) && '=' !in s && '\n' !in s && s[0] != '#' && s[0] != '-' && Lower(s) == s && Trim(s) == s
  {
    TrimTrimmed(s);
  }

  lemma KeysAreWords(kind: Kind)
    ensures IsWord(KeyOf(kind))
  {
  }

  lemma KeysAreFound(kind: Kind)
    ensures FindKind(KeyOf(kind)) == Some(kind)
  {
  }

  lemma KeysAreNotHeads(kind: Kind)
    ensures KeyOf(kind) != "name" && KeyOf(kind) != "enabled" && KeyOf(kind) != "action"
  {
  }

  lemma FlagsComeBack(enabled: bool)
    ensures IsWord(FlagWord(enabled)) && ParseFlag(FlagWord(enabled)) == Some(enabled)
  {
    assert IsWord(FlagWord(enabled));
    WordFacts(FlagWord(enabled));
  }

  lemma ActionsComeBack(action: Action)
    ensures IsWord(ActionWord(action)) && ParseAction(ActionWord(action)) == Some(action)
  {
    assert IsWord(ActionWord(action));
    WordFacts(ActionWord(action));
  }

  lemma {:induction false} NewKindComesLast(conditions: seq<Condition>, kind: Kind, values: seq<string>)
    requires forall i :: 0 <= i < |conditions| ==> conditions[i].kind != kind
    ensures SetValues(conditions, kind, values) == conditions + [Condition(kind, values)]
    ensures ValuesOf(conditions, kind) == []
  {
    if conditions != [] {
      NewKindComesLast(conditions[1..], kind, values);
    }
  }

  /** The key and the value of a condition's line. */
  function PrintedValue(c: Condition): string {
    if c.kind == IpIsPrivate then "true" else JoinValues(c.values)
  }

  lemma ConditionIsPair(c: Condition)
    requires CleanCondition(c)
    ensures IsPair(ConditionLine(c), KeyOf(c.kind), PrintedValue(c))
  {
    KeysAreWords(c.kind);
    WordFacts(KeyOf(c.kind));
    if c.kind == IpIsPrivate {
      assert IsWord("true");
      WordFacts("true");
    } else {
      JoinedValuesFacts(c.values);
    }
  }

  lemma ConditionIsParsed(d: Draft, c: Condition)
    requires CleanCondition(c) && forall i :: 0 <= i < |d.conditions| ==> d.conditions[i].kind != c.kind
    ensures ParseCondition(d, c.kind, PrintedValue(c)) == Ok(d.(conditions := d.conditions + [c]))
  {
    if c.kind == IpIsPrivate {
      FlagsComeBack(true);
      NewKindComesLast(d.conditions, c.kind, []);
    } else {
      assert [] + JoinValues(c.values) == JoinValues(c.values);
      ValuesComeBack([], c.values);
      DedupFacts(c.values);
      assert [] + c.values == c.values;
      NewKindComesLast(d.conditions, c.kind, c.values);
    }
  }

  lemma ConditionComesBack(d: Draft, c: Condition)
    requires CleanCondition(c) && forall i :: 0 <= i < |d.conditions| ==> d.conditions[i].kind != c.kind
    ensures ParseLine(d, ConditionLine(c)) == Ok(d.(conditions := d.conditions + [c]))
  {
    KeysAreFound(c.kind);
    KeysAreNotHeads(c.kind);
    ConditionIsPair(c);
    PairIsParsed(d, ConditionLine(c), KeyOf(c.kind), PrintedValue(c));
    ConditionIsParsed(d, c);
  }

  lemma OneLine(d: Draft, next: Draft, lines: seq<string>, number: nat)
    requires lines != [] && ParseLine(d, lines[0]) == Ok(next)
    ensures ParseLines(d, lines, number) == ParseLines(next, lines[1..], number + 1)
  {
  }

  lemma {:induction false} ConditionsComeBack(d: Draft, all: seq<Condition>, i: nat, number: nat)
    requires CleanConditions(all) && i <= |all| && d.conditions == all[..i]
    ensures ParseLines(d, ConditionLines(all)[i..], number) == Ok(d.(conditions := all))
    decreases |all| - i
  {
    if i == |all| {
      TakeAll(all);
    } else {
      var next := d.(conditions := all[..i + 1]);
      forall k | 0 <= k < i ensures d.conditions[k].kind != all[i].kind {
        assert d.conditions[k] == all[k];
      }
      ConditionComesBack(d, all[i]);
      TakeOneMore(all, i);
      var lines := ConditionLines(all)[i..];
      assert lines[0] == ConditionLine(all[i]) && lines[1..] == ConditionLines(all)[i + 1..];
      OneLine(d, next, lines, number);
      ConditionsComeBack(next, all, i + 1, number + 1);
    }
  }

  lemma HeadsArePairs(rule: Rule)
    requires CleanName(rule.name)
    ensures IsPair("name=" + rule.name, "name", rule.name)
    ensures IsPair("enabled=" + FlagWord(rule.enabled), "enabled", FlagWord(rule.enabled))
    ensures IsPair("action=" + ActionWord(rule.action), "action", ActionWord(rule.action))
  {
    assert IsWord("name") && IsWord("enabled") && IsWord("action");
    WordFacts("name");
    WordFacts("enabled");
    WordFacts("action");
    FlagsComeBack(rule.enabled);
    WordFacts(FlagWord(rule.enabled));
    ActionsComeBack(rule.action);
    WordFacts(ActionWord(rule.action));
    assert "name=" == "name" + ['='] && "enabled=" == "enabled" + ['='] && "action=" == "action" + ['='];
  }

  lemma ThreeLines(d0: Draft, d1: Draft, d2: Draft, d3: Draft, lines: seq<string>, number: nat)
    requires |lines| == 3
    requires ParseLine(d0, lines[0]) == Ok(d1) && ParseLine(d1, lines[1]) == Ok(d2) && ParseLine(d2, lines[2]) == Ok(d3)
    ensures ParseLines(d0, lines, number) == Ok(d3)
  {
    assert ParseLines(d3, lines[1..][1..][1..], number + 3) == Ok(d3);
    assert ParseLines(d2, lines[1..][1..], number + 2) == Ok(d3);
    assert ParseLines(d1, lines[1..], number + 1) == Ok(d3);
  }

  function HeadLines(rule: Rule): seq<string> {
    ["name=" + rule.name, "enabled=" + FlagWord(rule.enabled), "action=" + ActionWord(rule.action)]
  }

  lemma HeadLinesAreParsed(rule: Rule, number: nat)
    requires CleanName(rule.name)
    ensures ParseLines(EMPTY, HeadLines(rule), number) ==
        Ok(Draft(Some(rule.name), Some(rule.enabled), Some(rule.action), []))
  {
    var head := HeadLines(rule);
    var d1 := EMPTY.(name := Some(rule.name));
    var d2 := d1.(enabled := Some(rule.enabled));
    var d3 := d2.(action := Some(rule.action));
    HeadsArePairs(rule);
    FlagsComeBack(rule.enabled);
    ActionsComeBack(rule.action);
    PairIsParsed(EMPTY, head[0], "name", rule.name);
    PairIsParsed(d1, head[1], "enabled", FlagWord(rule.enabled));
    PairIsParsed(d2, head[2], "action", ActionWord(rule.action));
    ThreeLines(EMPTY, d1, d2, d3, head, number);
  }

  function DraftOf(rule: Rule): Draft {
    Draft(Some(rule.name), Some(rule.enabled), Some(rule.action), rule.conditions)
  }

  lemma BodyComesBack(rule: Rule, number: nat)
    requires Accepted(rule)
    ensures ParseLines(EMPTY, BodyLines(rule), number) == Ok(DraftOf(rule))
  {
    var head := HeadLines(rule);
    var d := Draft(Some(rule.name), Some(rule.enabled), Some(rule.action), []);
    HeadLinesAreParsed(rule, number);
    ConditionsComeBack(d, rule.conditions, 0, number + 3);
    assert ConditionLines(rule.conditions)[0..] == ConditionLines(rule.conditions);
    ParseInParts(EMPTY, head, ConditionLines(rule.conditions), number);
  }

  /** What holds of each line of a printed body. */
  lemma BodyLineFacts(rule: Rule, i: nat)
    requires Accepted(rule) && i < |BodyLines(rule)|
    ensures
      var line := BodyLines(rule)[i];
      Trim(line) == line && Chomp(line) == line && '\n' !in line && !Ignored(line) && line != "---"
  {
    HeadsArePairs(rule);
    var line := BodyLines(rule)[i];
    if i == 0 {
      PairIsParsed(EMPTY, line, "name", rule.name);
    } else if i == 1 {
      PairIsParsed(EMPTY, line, "enabled", FlagWord(rule.enabled));
    } else if i == 2 {
      PairIsParsed(EMPTY, line, "action", ActionWord(rule.action));
    } else {
      var c := rule.conditions[i - 3];
      ConditionIsPair(c);
      PairIsParsed(EMPTY, line, KeyOf(c.kind), PrintedValue(c));
    }
  }

  // ----- one rule

  lemma ParseThreeParts(before: seq<string>, body: seq<string>, after: seq<string>, d: Draft, number: nat)
    requires AllComments(before) && AllComments(after)
    requires ParseLines(EMPTY, body, number + |before|) == Ok(d)
    ensures ParseLines(EMPTY, before + body + after, number) == Ok(d)
  {
    CommentsAreSkipped(EMPTY, before, number);
    ParseInParts(EMPTY, before, body, number);
    CommentsAreSkipped(d, after, number + |before + body|);
    ParseInParts(EMPTY, before + body, after, number);
  }

  lemma DraftIsFinished(rule: Rule)
    requires Accepted(rule)
    ensures Finish(DraftOf(rule)) == Ok(rule)
  {
  }

  lemma HashIsComment(line: string)
    requires line != [] && line[0] == '#' && '\n' !in line
    ensures IsComment(line) && IsComment(Chomp(line))
  {
    TrimEndFacts(line);
    if |line| >= 2 {
      TrimEndFacts(Chomp(line));
    }
  }

  ghost predicate Hashed(lines: seq<string>) {
    forall i :: 0 <= i < |lines| ==> '\n' !in lines[i] && (lines[i] == [] || lines[i][0] == '#')
  }

  lemma HashedAreComments(lines: seq<string>)
    requires Hashed(lines)
    ensures AllComments(ChompAll(lines)) && AllComments(ChompAll(lines) + [""])
  {
    assert IsComment("");
    forall i | 0 <= i < |lines| ensures IsComment(ChompAll(lines)[i]) {
      if lines[i] != [] {
        HashIsComment(lines[i]);
      }
    }
  }

  lemma RuleHeaderIsHashed()
    ensures Hashed(RULE_HEADER)
  {
    assert '\n' !in RULE_HEADER[0];
    assert '\n' !in RULE_HEADER[1];
    assert '\n' !in RULE_HEADER[2];
  }

  lemma PoolHeaderIsHashed()
    ensures Hashed(POOL_HEADER)
  {
    assert '\n' !in POOL_HEADER[0];
    assert '\n' !in POOL_HEADER[1];
    assert '\n' !in POOL_HEADER[2];
  }

  lemma HintsAreHashed()
    ensures Hashed([NO_CONDITIONS]) && Hashed(["", SOURCE_HEADER])
  {
    assert '\n' !in NO_CONDITIONS;
    assert '\n' !in SOURCE_HEADER;
  }

  lemma TailIsHashed(rule: Rule, source: string)
    ensures Hashed(TailLines(rule, source))
  {
    HintsAreHashed();
    LinesHaveNoNewline(source);
    var lines := Lines(source);
    forall i | 0 <= i < |lines| ensures '\n' !in Commented(lines)[i] && Commented(lines)[i][0] == '#' {
      assert Commented(lines)[i] == "# " + lines[i];
    }
    assert Hashed(Commented(lines));
  }

  /** Lines that joining and splitting leaves as they are. */
  ghost predicate Plain(lines: seq<string>) {
    ChompAll(lines) == lines && forall i :: 0 <= i < |lines| ==> '\n' !in lines[i]
  }

  lemma ChompAllOfConcat(a: seq<string>, b: seq<string>)
    ensures ChompAll(a + b) == ChompAll(a) + ChompAll(b)
  {
  }

  lemma BodyIsChomped(rule: Rule)
    requires Accepted(rule)
    ensures Plain(BodyLines(rule))
  {
    forall i | 0 <= i < |BodyLines(rule)|
        ensures Chomp(BodyLines(rule)[i]) == BodyLines(rule)[i] && '\n' !in BodyLines(rule)[i] {
      BodyLineFacts(rule, i);
    }
  }

  /** Joined lines with the final line break are the join of the lines and an empty one. */
  lemma {:induction false} FinalBreak(lines: seq<string>)
    requires lines != []
    ensures Join(lines) + "\n" == Join(lines + [""])
    decreases |lines|
  {
    if |lines| > 1 {
      FinalBreak(lines[1..]);
      assert (lines + [""])[1..] == lines[1..] + [""];
      assert Join(lines) + "\n" == lines[0] + ['\n'] + (Join(lines[1..]) + "\n");
    } else {
      assert (lines + [""])[1..] == [""];
      assert Join(lines + [""]) == lines[0] + ['\n'] + [];
    }
  }

  lemma PrintedLines(header: seq<string>, body: seq<string>, tail: seq<string>)
    requires Hashed(header) && Hashed(tail) && header != []
    requires Plain(body)
    ensures Lines(Join(header + body + tail) + "\n") == ChompAll(header) + body + (ChompAll(tail) + [""])
  {
    var lines := header + body + tail;
    FinalBreak(lines);
    LinesOfJoin(lines, "");
    ChompAllOfConcat(header + body, tail);
    ChompAllOfConcat(header, body);
    assert ChompAll(lines) + [""] == ChompAll(header) + body + (ChompAll(tail) + [""]);
  }

  lemma PrintedPartsParse(header: seq<string>, body: seq<string>, tail: seq<string>, d: Draft)
    requires Hashed(header) && Hashed(tail) && header != []
    requires Plain(body)
    requires ParseLines(EMPTY, body, 1 + |header|) == Ok(d)
    ensures ParseLines(EMPTY, Lines(Join(header + body + tail) + "\n"), 1) == Ok(d)
  {
    PrintedLines(header, body, tail);
    HashedAreComments(header);
    HashedAreComments(tail);
    ParseThreeParts(ChompAll(header), body, ChompAll(tail) + [""], d, 1);
  }

  lemma PrintedDraft(rule: Rule, source: string)
    requires Accepted(rule)
    ensures ParseLines(EMPTY, Lines(SerializeRule(rule, source)), 1) == Ok(DraftOf(rule))
  {
    var header, body, tail := RULE_HEADER, BodyLines(rule), TailLines(rule, source);
    RuleHeaderIsHashed();
    TailIsHashed(rule, source);
    BodyIsChomped(rule);
    BodyComesBack(rule, 1 + |header|);
    PrintedPartsParse(header, body, tail, DraftOf(rule));
  }

  /** A printed rule parses to itself, whatever its upstream source text is. */
  lemma PrintedRuleParses(rule: Rule, source: string)
    requires Accepted(rule)
    ensures ParseRule(SerializeRule(rule, source)) == Ok(rule)
  {
    DraftIsFinished(rule);
    PrintedDraft(rule, source);
  }

  /** Whatever text a rule was parsed from, printing and parsing it again gives exactly that rule. */
  lemma RuleRoundTrip(text: string, source: string)
    ensures ParseRule(text).Ok? ==> ParseRule(SerializeRule(ParseRule(text).value, source)) == ParseRule(text)
  {
    if ParseRule(text).Ok? {
      ParsedRuleIsAccepted(text);
      PrintedRuleParses(ParseRule(text).value, source);
    }
  }

  // ----- pools

  ghost predicate AllAccepted(rules: seq<Rule>) {
    forall i :: 0 <= i < |rules| ==> Accepted(rules[i])
  }

  lemma {:induction false} ParsedSegmentsAreAccepted(segments: seq<seq<string>>)
    ensures ParseSegments(segments).Ok? ==> AllAccepted(ParseSegments(segments).value)
    decreases |segments|
  {
    if segments != [] {
      ParsedSegmentsAreAccepted(segments[..|segments| - 1]);
      ParsedRuleIsAccepted(Join(segments[|segments| - 1]));
    }
  }

  /** No line separates: each only extends the open segment. */
  ghost predicate NoSeparator(lines: seq<string>) {
    forall i :: 0 <= i < |lines| ==> Trim(lines[i]) != SEPARATOR
  }

  /** More lines for the open segment. */
  function Extend(segments: seq<seq<string>>, more: seq<string>): seq<seq<string>>
    requires segments != []
  {
    segments[..|segments| - 1] + [segments[|segments| - 1] + more]
  }

  lemma ExtendTwice(segments: seq<seq<string>>, a: seq<string>, b: seq<string>)
    requires segments != []
    ensures Extend(Extend(segments, a), b) == Extend(segments, a + b)
  {
    var last := segments[|segments| - 1];
    assert last + a + b == last + (a + b);
  }

  lemma SegmentsOfMore(a: seq<string>, line: string)
    requires Trim(line) != SEPARATOR
    ensures Segments(a + [line]) == Extend(Segments(a), [line])
  {
    assert (a + [line])[..|a|] == a;
  }

  lemma SegmentsExtendByOne(a: seq<string>, more: seq<string>, line: string)
    requires Trim(line) != SEPARATOR
    requires Segments(a + more) == Extend(Segments(a), more)
    ensures Segments(a + (more + [line])) == Extend(Segments(a), more + [line])
  {
    SegmentsOfMore(a + more, line);
    ExtendTwice(Segments(a), more, [line]);
    assert a + (more + [line]) == a + more + [line];
  }

  lemma ExtendByNothing(segments: seq<seq<string>>)
    requires segments != []
    ensures Extend(segments, []) == segments
  {
    var last := segments[|segments| - 1];
    assert last + [] == last;
  }

  lemma {:induction false} SegmentsExtend(a: seq<string>, more: seq<string>)
    requires NoSeparator(more)
    ensures Segments(a + more) == Extend(Segments(a), more)
    decreases |more|
  {
    if more == [] {
      assert a + more == a;
      ExtendByNothing(Segments(a));
    } else {
      var rest, last := more[..|more| - 1], more[|more| - 1];
      SegmentsExtend(a, rest);
      SegmentsExtendByOne(a, rest, last);
      SplitLast(more);
    }
  }

  lemma SegmentsCut(a: seq<string>)
    ensures Segments(a + [SEPARATOR]) == Segments(a) + [[]]
  {
    assert (a + [SEPARATOR])[..|a|] == a;
    TrimTrimmed(SEPARATOR);
  }

  /** The header and the bodies, each with the empty line that follows it. */
  function Printed(rules: seq<Rule>): seq<seq<string>>
    decreases |rules|
  {
    if rules == [] then [POOL_HEADER + [""]] else Printed(rules[..|rules| - 1]) + [BodyLines(rules[|rules| - 1]) + [""]]
  }

  lemma BodyHasNoSeparator(rule: Rule)
    requires Accepted(rule)
    ensures NoSeparator(BodyLines(rule) + [""])
  {
    forall i | 0 <= i < |BodyLines(rule)| ensures Trim(BodyLines(rule)[i]) != SEPARATOR {
      BodyLineFacts(rule, i);
    }
  }

  lemma HeaderHasNoSeparator()
    ensures NoSeparator(POOL_HEADER + [""])
  {
    PoolHeaderIsHashed();
    assert Trimmed(POOL_HEADER[0]) && Trimmed(POOL_HEADER[1]) && Trimmed(POOL_HEADER[2]);
    TrimTrimmed(POOL_HEADER[0]);
    TrimTrimmed(POOL_HEADER[1]);
    TrimTrimmed(POOL_HEADER[2]);
  }

  lemma SegmentsOfBody(a: seq<string>, body: seq<string>)
    requires NoSeparator(body)
    ensures Segments(a + [SEPARATOR] + body) == Segments(a) + [body]
  {
    SegmentsCut(a);
    SegmentsExtend(a + [SEPARATOR], body);
    assert [] + body == body;
  }

  lemma SegmentsOfHeader(header: seq<string>)
    requires NoSeparator(header)
    ensures Segments(header) == [header]
  {
    SegmentsExtend([], header);
    assert [] + header == header;
  }

  lemma SegmentsOfNext(before: seq<string>, body: seq<string>)
    requires NoSeparator(body + [""])
    ensures Segments(before + ["", SEPARATOR] + body + [""]) == Segments(before + [""]) + [body + [""]]
  {
    SegmentsOfBody(before + [""], body + [""]);
    assert before + [""] + [SEPARATOR] + (body + [""]) == before + ["", SEPARATOR] + body + [""];
  }

  lemma {:induction false} SegmentsOfPool(rules: seq<Rule>)
    requires AllAccepted(rules)
    ensures Segments(PoolLines(rules) + [""]) == Printed(rules)
    decreases |rules|
  {
    if rules == [] {
      HeaderHasNoSeparator();
      SegmentsOfHeader(POOL_HEADER + [""]);
    } else {
      var rest, last := rules[..|rules| - 1], rules[|rules| - 1];
      SegmentsOfPool(rest);
      BodyHasNoSeparator(last);
      SegmentsOfNext(PoolLines(rest), BodyLines(last));
    }
  }

  lemma CommentsAreNotMeaningful(lines: seq<string>)
    requires Hashed(lines)
    ensures !Meaningful(lines + [""])
  {
    assert IsComment("");
    forall i | 0 <= i < |lines| ensures IsComment(lines[i]) {
      if lines[i] != [] {
        HashIsComment(lines[i]);
      }
    }
  }

  lemma BodyIsMeaningful(rule: Rule)
    requires Accepted(rule)
    ensures Meaningful(BodyLines(rule) + [""])
  {
    BodyLineFacts(rule, 0);
    assert (BodyLines(rule) + [""])[0] == BodyLines(rule)[0];
  }

  lemma PlainBodyParses(body: seq<string>, d: Draft)
    requires Plain(body) && ParseLines(EMPTY, body, 1) == Ok(d)
    ensures ParseLines(EMPTY, Lines(Join(body + [""])), 1) == Ok(d)
  {
    LinesOfJoin(body, "");
    assert AllComments([]) && AllComments([""]) by { assert IsComment(""); }
    ParseThreeParts([], body, [""], d, 1);
    assert [] + body + [""] == body + [""];
  }

  lemma SegmentParses(rule: Rule)
    requires Accepted(rule)
    ensures ParseRule(Join(BodyLines(rule) + [""])) == Ok(rule)
  {
    DraftIsFinished(rule);
    BodyIsChomped(rule);
    BodyComesBack(rule, 1);
    PlainBodyParses(BodyLines(rule), DraftOf(rule));
  }

  lemma CommentSegmentIsNoRule(segment: seq<string>)
    requires !Meaningful(segment)
    ensures RuleSegments([segment]) == []
  {
    assert [segment][..0] == [];
  }

  lemma RuleSegmentParses(segments: seq<seq<string>>, segment: seq<string>, rules: seq<Rule>, rule: Rule)
    requires Meaningful(segment) && ParseRule(Join(segment)) == Ok(rule)
    requires ParseSegments(RuleSegments(segments)) == Ok(rules)
    ensures ParseSegments(RuleSegments(segments + [segment])) == Ok(rules + [rule])
  {
    DropLast(segments, segment);
    DropLast(RuleSegments(segments), segment);
  }

  lemma {:induction false} PrintedSegmentsParse(rules: seq<Rule>)
    requires AllAccepted(rules)
    ensures ParseSegments(RuleSegments(Printed(rules))) == Ok(rules)
    decreases |rules|
  {
    if rules == [] {
      PoolHeaderIsHashed();
      CommentsAreNotMeaningful(POOL_HEADER);
      CommentSegmentIsNoRule(POOL_HEADER + [""]);
    } else {
      var rest, last := rules[..|rules| - 1], rules[|rules| - 1];
      PrintedSegmentsParse(rest);
      BodyIsMeaningful(last);
      SegmentParses(last);
      RuleSegmentParses(Printed(rest), BodyLines(last) + [""], rest, last);
      SplitLast(rules);
    }
  }

  lemma {:induction false} PoolLinesArePlain(rules: seq<Rule>)
    requires AllAccepted(rules)
    ensures Plain(PoolLines(rules)) && PoolLines(rules) != []
    decreases |rules|
  {
    if rules == [] {
      PoolHeaderIsHashed();
      assert Chomp(POOL_HEADER[0]) == POOL_HEADER[0];
      assert Chomp(POOL_HEADER[1]) == POOL_HEADER[1];
      assert Chomp(POOL_HEADER[2]) == POOL_HEADER[2];
    } else {
      var rest, body := PoolLines(rules[..|rules| - 1]), BodyLines(rules[|rules| - 1]);
      PoolLinesArePlain(rules[..|rules| - 1]);
      BodyIsChomped(rules[|rules| - 1]);
      PlainConcat(rest, ["", SEPARATOR]);
      PlainConcat(rest + ["", SEPARATOR], body);
    }
  }

  lemma PlainConcat(a: seq<string>, b: seq<string>)
    requires Plain(a) && Plain(b)
    ensures Plain(a + b)
  {
    ChompAllOfConcat(a, b);
  }

  lemma PrintedPoolParses(rules: seq<Rule>)
    requires AllAccepted(rules)
    ensures ParsePool(SerializePool(rules)) == Ok(rules)
  {
    var lines := PoolLines(rules);
    PoolLinesArePlain(rules);
    FinalBreak(lines);
    LinesOfJoin(lines, "");
    SegmentsOfPool(rules);
    PrintedSegmentsParse(rules);
  }

  /** Whatever text a pool was parsed from, printing and parsing it again gives the same rules in the same order. */
  lemma PoolRoundTrip(text: string)
    ensures ParsePool(text).Ok? ==> ParsePool(SerializePool(ParsePool(text).value)) == ParsePool(text)
  {
    if ParsePool(text).Ok? {
      ParsedSegmentsAreAccepted(RuleSegments(Segments(Lines(text))));
      PrintedPoolParses(ParsePool(text).value);
    }
  }
}
