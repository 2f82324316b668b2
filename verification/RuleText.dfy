/**
 The rule text format (web/src/views/ruleText.ts): a printer and a parser of
 routing rules and rule pools as key=value lines.
 */
module RuleText {
  import opened Common

  datatype Kind =
    | Domain | DomainSuffix | DomainKeyword | IpCidr | IpIsPrivate
    | Port | PortRange | ProcessName | Network | Protocol

  datatype Action = Proxy | Direct | Block

  datatype Condition = Condition(kind: Kind, values: seq<string>)

  datatype Rule = Rule(name: string, enabled: bool, action: Action, conditions: seq<Condition>)

  datatype Reason =
    | NotKeyValue | Repeated(key: string) | EmptyName | BadFlag | BadAction
    | UnknownKey(key: string) | PrivateMustBeTrue | NoValues(key: string)

  datatype Error =
    | AtLine(line: nat, reason: Reason)
    | MissingName | MissingAction | NoConditions

  /** The number of the rule, from 1, and what is wrong with it. */
  datatype PoolError = InRule(index: nat, error: Error)

  // ----- strings

  /** What String.prototype.trim removes. */
  predicate IsSpace(c: char) {
    || c in ['\t', '\n', '\U{0B}', '\U{0C}', '\r', ' ', '\U{A0}', '\U{1680}', '\U{FEFF}']
    || '\U{2000}' <= c <= '\U{200A}'
    || c in ['\U{2028}', '\U{2029}', '\U{202F}', '\U{205F}', '\U{3000}']
  }

  function TrimStart(s: string): string {
    if s != [] && IsSpace(s[0]) then TrimStart(s[1..]) else s
  }

  function TrimEnd(s: string): string
    decreases |s|
  {
    if s != [] && IsSpace(s[|s| - 1]) then TrimEnd(s[..|s| - 1]) else s
  }

  function Trim(s: string): string {
    TrimEnd(TrimStart(s))
  }

  predicate Trimmed(s: string) {
    s == [] || (!IsSpace(s[0]) && !IsSpace(s[|s| - 1]))
  }

  lemma {:induction false} TrimEndFacts(s: string)
    ensures s != [] && !IsSpace(s[0]) ==> TrimEnd(s) != [] && TrimEnd(s)[0] == s[0]
    ensures TrimEnd(s) != [] ==> !IsSpace(TrimEnd(s)[|TrimEnd(s)| - 1])
    ensures forall c :: c in TrimEnd(s) ==> c in s
    decreases |s|
  {
    if s != [] && IsSpace(s[|s| - 1]) {
      TrimEndFacts(s[..|s| - 1]);
    }
  }

  lemma {:induction false} TrimStartFacts(s: string)
    ensures TrimStart(s) != [] ==> !IsSpace(TrimStart(s)[0])
    ensures forall c :: c in TrimStart(s) ==> c in s
  {
    if s != [] && IsSpace(s[0]) {
      TrimStartFacts(s[1..]);
    }
  }

  lemma TrimFacts(s: string)
    ensures Trimmed(Trim(s))
    ensures forall c :: c in Trim(s) ==> c in s
  {
    TrimStartFacts(s);
    TrimEndFacts(TrimStart(s));
  }

  lemma TrimTrimmed(s: string)
    requires Trimmed(s)
    ensures Trim(s) == s
    ensures Trim([' '] + s) == s
  {
    assert ([' '] + s)[1..] == s;
  }

  function LowerChar(c: char): char {
    if 'A' <= c <= 'Z' then (c as int + 32) as char
    else if c == '\U{212A}' then 'k'
    else c
  }

  /** toLowerCase, as far as it can produce one of the words the parser knows. */
  function Lower(s: string): string {
    seq(|s|, i requires 0 <= i < |s| => LowerChar(s[i]))
  }

  function IndexOf(s: string, c: char): (i: int)
    ensures -1 <= i < |s|
  {
    if s == [] then -1
    else if s[0] == c then 0
    else
      var rest := IndexOf(s[1..], c);
      if rest < 0 then -1 else rest + 1
  }

  lemma {:induction false} IndexOfAfter(key: string, c: char, rest: string)
    requires c !in key
    ensures IndexOf(key + [c] + rest, c) == |key|
  {
    var s := key + [c] + rest;
    if key != [] {
      assert s[0] == key[0] && key[0] in key;
      assert s[1..] == key[1..] + [c] + rest;
      IndexOfAfter(key[1..], c, rest);
    }
  }

  /** split(/\r?\n/) */
  function Lines(text: string): (lines: seq<string>)
    ensures |lines| >= 1
    decreases |text|
  {
    if text == [] then [[]]
    else if text[0] == '\n' then [[]] + Lines(text[1..])
    else if |text| >= 2 && text[0] == '\r' && text[1] == '\n' then [[]] + Lines(text[2..])
    else
      var rest := Lines(text[1..]);
      [[text[0]] + rest[0]] + rest[1..]
  }

  /** lines.join('\n') */
  function Join(lines: seq<string>): string {
    if lines == [] then []
    else if |lines| == 1 then lines[0]
    else lines[0] + ['\n'] + Join(lines[1..])
  }

  function Chomp(line: string): string {
    if line != [] && line[|line| - 1] == '\r' then line[..|line| - 1] else line
  }

  lemma {:induction false} LinesHaveNoNewline(text: string)
    ensures forall i :: 0 <= i < |Lines(text)| ==> '\n' !in Lines(text)[i]
    decreases |text|
  {
    if text != [] {
      if text[0] == '\n' {
        LinesHaveNoNewline(text[1..]);
      } else if |text| >= 2 && text[0] == '\r' && text[1] == '\n' {
        LinesHaveNoNewline(text[2..]);
      } else {
        LinesHaveNoNewline(text[1..]);
      }
    }
  }

  lemma {:induction false} LastLine(line: string)
    requires '\n' !in line
    ensures Lines(line) == [line]
  {
    if line != [] {
      assert line[0] in line;
      assert |line| >= 2 ==> line[1] in line;
      LastLine(line[1..]);
      assert line == [line[0]] + line[1..];
    }
  }

  lemma {:induction false} FirstLine(line: string, rest: string)
    requires '\n' !in line
    ensures Lines(line + ['\n'] + rest) == [Chomp(line)] + Lines(rest)
  {
    var text := line + ['\n'] + rest;
    if line == [] {
      assert text[1..] == rest;
    } else if line == ['\r'] {
      assert text[2..] == rest;
    } else {
      assert line[0] in line;
      assert text[1..] == line[1..] + ['\n'] + rest;
      if |line| >= 2 {
        assert line[1] in line && text[1] == line[1];
      }
      FirstLine(line[1..], rest);
      assert Chomp(line) == [line[0]] + Chomp(line[1..]);
    }
  }

  function ChompAll(lines: seq<string>): seq<string> {
    seq(|lines|, i requires 0 <= i < |lines| => Chomp(lines[i]))
  }

  /** Splitting what was joined gives the lines back, less a carriage return that stood before a line break. */
  lemma {:induction false} LinesOfJoin(lines: seq<string>, last: string)
    requires forall i :: 0 <= i < |lines| ==> '\n' !in lines[i]
    requires '\n' !in last
    ensures Lines(Join(lines + [last])) == ChompAll(lines) + [last]
  {
    if lines == [] {
      LastLine(last);
      assert lines + [last] == [last];
    } else {
      assert (lines + [last])[1..] == lines[1..] + [last];
      LinesOfJoin(lines[1..], last);
      FirstLine(lines[0], Join(lines[1..] + [last]));
      assert ChompAll(lines) == [Chomp(lines[0])] + ChompAll(lines[1..]);
    }
  }

  // ----- values

  predicate IsSeparator(c: char) {
    c == '\n' || c == ',' || c == '，'
  }

  /** split(/[\n,，]/) */
  function Pieces(s: string): (pieces: seq<string>)
    ensures |pieces| >= 1
  {
    if s == [] then [[]]
    else if IsSeparator(s[0]) then [[]] + Pieces(s[1..])
    else
      var rest := Pieces(s[1..]);
      [[s[0]] + rest[0]] + rest[1..]
  }

  function Cleaned(pieces: seq<string>): seq<string> {
    if pieces == [] then []
    else
      var first := Trim(pieces[0]);
      (if first == [] then [] else [first]) + Cleaned(pieces[1..])
  }

  /** [...new Set(items)] */
  function Dedup(items: seq<string>): seq<string>
    decreases |items|
  {
    if items == [] then []
    else
      var before := Dedup(items[..|items| - 1]);
      if items[|items| - 1] in before then before else before + [items[|items| - 1]]
  }

  function SplitValues(value: string): seq<string> {
    Dedup(Cleaned(Pieces(value)))
  }

  /** values.join(', ') */
  function JoinValues(values: seq<string>): string {
    if values == [] then []
    else if |values| == 1 then values[0]
    else values[0] + [',', ' '] + JoinValues(values[1..])
  }

  /** A value as the parser leaves it. */
  ghost predicate CleanValue(v: string) {
    v != [] && Trimmed(v) && forall c :: c in v ==> !IsSeparator(c)
  }

  ghost predicate CleanValues(values: seq<string>) {
    forall v :: v in values ==> CleanValue(v)
  }

  lemma {:induction false} PiecesHaveNoSeparator(s: string)
    ensures forall i, c :: 0 <= i < |Pieces(s)| && c in Pieces(s)[i] ==> !IsSeparator(c)
  {
    if s != [] {
      PiecesHaveNoSeparator(s[1..]);
    }
  }

  lemma {:induction false} CleanedAreClean(pieces: seq<string>)
    requires forall i, c :: 0 <= i < |pieces| && c in pieces[i] ==> !IsSeparator(c)
    ensures CleanValues(Cleaned(pieces))
  {
    if pieces != [] {
      TrimFacts(pieces[0]);
      CleanedAreClean(pieces[1..]);
    }
  }

  lemma {:induction false} DedupFacts(items: seq<string>)
    ensures Distinct(Dedup(items))
    ensures forall x :: x in Dedup(items) <==> x in items
    ensures Distinct(items) ==> Dedup(items) == items
    decreases |items|
  {
    if items != [] {
      var rest, last := items[..|items| - 1], items[|items| - 1];
      DedupFacts(rest);
      SplitLast(items);
    }
  }

  lemma SplitValuesAreClean(value: string)
    ensures CleanValues(SplitValues(value)) && Distinct(SplitValues(value))
  {
    PiecesHaveNoSeparator(value);
    CleanedAreClean(Pieces(value));
    DedupFacts(Cleaned(Pieces(value)));
  }

  lemma {:induction false} OnePiece(v: string)
    requires forall c :: c in v ==> !IsSeparator(c)
    ensures Pieces(v) == [v]
  {
    if v != [] {
      assert v[0] in v;
      OnePiece(v[1..]);
      assert v == [v[0]] + v[1..];
    }
  }

  lemma {:induction false} FirstPiece(v: string, rest: string)
    requires forall c :: c in v ==> !IsSeparator(c)
    ensures Pieces(v + [','] + rest) == [v] + Pieces(rest)
  {
    var s := v + [','] + rest;
    if v == [] {
      assert s[1..] == rest;
    } else {
      assert v[0] in v;
      assert s[1..] == v[1..] + [','] + rest;
      FirstPiece(v[1..], rest);
      assert v == [v[0]] + v[1..];
    }
  }

  lemma CleanedOne(v: string, lead: string, rest: seq<string>)
    requires CleanValue(v) && (lead == [] || lead == [' '])
    ensures Cleaned([lead + v] + rest) == [v] + Cleaned(rest)
  {
    TrimTrimmed(v);
    assert [] + v == v;
    assert ([lead + v] + rest)[1..] == rest;
  }

  lemma {:induction false} ValuesComeBack(lead: string, values: seq<string>)
    requires lead == [] || lead == [' ']
    requires values != [] && CleanValues(values)
    ensures Cleaned(Pieces(lead + JoinValues(values))) == values
    decreases |values|
  {
    var v := values[0];
    assert v in values && CleanValue(v);
    if |values| == 1 {
      OnePiece(lead + v);
      CleanedOne(v, lead, []);
      assert [lead + v] + [] == [lead + v];
    } else {
      var rest := JoinValues(values[1..]);
      assert forall x :: x in values[1..] ==> x in values;
      assert lead + JoinValues(values) == (lead + v) + [','] + ([' '] + rest);
      FirstPiece(lead + v, [' '] + rest);
      ValuesComeBack([' '], values[1..]);
      CleanedOne(v, lead, Pieces([' '] + rest));
      assert values == [v] + values[1..];
    }
  }

  lemma {:induction false} JoinedValuesFacts(values: seq<string>)
    requires values != [] && CleanValues(values)
    ensures JoinValues(values) != [] && Trimmed(JoinValues(values)) && '\n' !in JoinValues(values)
  {
    var v := values[0];
    assert v in values && CleanValue(v);
    assert forall x :: x in values[1..] ==> x in values;
    if |values| > 1 {
      JoinedValuesFacts(values[1..]);
      var rest := JoinValues(values[1..]);
      var s := JoinValues(values);
      assert s[0] == v[0] && s[|s| - 1] == rest[|rest| - 1];
    }
  }

  // ----- keys

  function KeyOf(kind: Kind): string {
    match kind
    case Domain => "domain"
    case DomainSuffix => "domain_suffix"
    case DomainKeyword => "domain_keyword"
    case IpCidr => "ip_cidr"
    case IpIsPrivate => "ip_is_private"
    case Port => "port"
    case PortRange => "port_range"
    case ProcessName => "process_name"
    case Network => "network"
    case Protocol => "protocol"
  }

  function FindKind(key: string): Option<Kind> {
    if key == "domain" then Some(Domain)
    else if key == "domain_suffix" then Some(DomainSuffix)
    else if key == "domain_keyword" then Some(DomainKeyword)
    else if key == "ip_cidr" then Some(IpCidr)
    else if key == "ip_is_private" then Some(IpIsPrivate)
    else if key == "port" then Some(Port)
    else if key == "port_range" then Some(PortRange)
    else if key == "process_name" then Some(ProcessName)
    else if key == "network" then Some(Network)
    else if key == "protocol" then Some(Protocol)
    else None
  }

  function ActionWord(action: Action): string {
    match action
    case Proxy => "proxy"
    case Direct => "direct"
    case Block => "block"
  }

  function FlagWord(enabled: bool): string {
    if enabled then "true" else "false"
  }

  function ParseFlag(value: string): Option<bool> {
    var word := Lower(Trim(value));
    if word in ["true", "1", "on", "是", "开", "启用"] then Some(true)
    else if word in ["false", "0", "off", "否", "关", "禁用"] then Some(false)
    else None
  }

  function ParseAction(value: string): Option<Action> {
    var word := Lower(Trim(value));
    if word == "proxy" || word == "代理" then Some(Proxy)
    else if word == "direct" || word == "直连" then Some(Direct)
    else if word == "block" || word == "阻断" then Some(Block)
    else None
  }

  // ----- the parser

  datatype Draft = Draft(name: Option<string>, enabled: Option<bool>, action: Option<Action>,
      conditions: seq<Condition>)

  const EMPTY := Draft(None, None, None, [])

  /** conditions.get(kind) ?? [] */
  function ValuesOf(conditions: seq<Condition>, kind: Kind): seq<string> {
    if conditions == [] then []
    else if conditions[0].kind == kind then conditions[0].values
    else ValuesOf(conditions[1..], kind)
  }

  /** conditions.set(kind, values): a known key keeps its place, a new one comes last. */
  function SetValues(conditions: seq<Condition>, kind: Kind, values: seq<string>): seq<Condition> {
    if conditions == [] then [Condition(kind, values)]
    else if conditions[0].kind == kind then [Condition(kind, values)] + conditions[1..]
    else [conditions[0]] + SetValues(conditions[1..], kind, values)
  }

  function ParseCondition(d: Draft, kind: Kind, value: string): Result<Draft, Reason> {
    if kind == IpIsPrivate then
      match ParseFlag(value)
      case None => Err(BadFlag)
      case Some(false) => Err(PrivateMustBeTrue)
      case Some(true) => Ok(d.(conditions := SetValues(d.conditions, kind, [])))
    else
      var values := SplitValues(value);
      if values == [] then Err(NoValues(KeyOf(kind)))
      else Ok(d.(conditions := SetValues(d.conditions, kind, Dedup(ValuesOf(d.conditions, kind) + values))))
  }

  function ParsePair(d: Draft, key: string, value: string): Result<Draft, Reason> {
    if key == "name" then
      if d.name.Some? then Err(Repeated(key))
      else if value == [] then Err(EmptyName)
      else Ok(d.(name := Some(value)))
    else if key == "enabled" then
      if d.enabled.Some? then Err(Repeated(key))
      else if ParseFlag(value).None? then Err(BadFlag)
      else Ok(d.(enabled := ParseFlag(value)))
    else if key == "action" then
      if d.action.Some? then Err(Repeated(key))
      else if ParseAction(value).None? then Err(BadAction)
      else Ok(d.(action := ParseAction(value)))
    else if FindKind(key).None? then Err(UnknownKey(key))
    else ParseCondition(d, FindKind(key).value, value)
  }

  predicate Ignored(line: string) {
    line == [] || line[0] == '#'
  }

  function ParseLine(d: Draft, raw: string): Result<Draft, Reason> {
    var line := Trim(raw);
    if Ignored(line) then Ok(d)
    else
      var separator := IndexOf(line, '=');
      if separator < 1 then Err(NotKeyValue)
      else ParsePair(d, Trim(line[..separator]), Trim(line[separator + 1..]))
  }

  /** The loop over the lines; the first of them is number `number`. */
  function ParseLines(d: Draft, lines: seq<string>, number: nat): Result<Draft, Error>
    decreases |lines|
  {
    if lines == [] then Ok(d)
    else
      match ParseLine(d, lines[0])
      case Err(reason) => Err(AtLine(number, reason))
      case Ok(next) => ParseLines(next, lines[1..], number + 1)
  }

  function Finish(d: Draft): Result<Rule, Error> {
    if d.name.None? then Err(MissingName)
    else if d.action.None? then Err(MissingAction)
    else if d.conditions == [] then Err(NoConditions)
    else Ok(Rule(d.name.value, if d.enabled.Some? then d.enabled.value else true, d.action.value, d.conditions))
  }

  function ParseRule(text: string): Result<Rule, Error> {
    var d :- ParseLines(EMPTY, Lines(text), 1);
    Finish(d)
  }

  /** The parser as it is written: one pass over the lines with five variables. */
  method ParseRuleText(text: string) returns (r: Result<Rule, Error>)
    ensures r == ParseRule(text)
  {
    var name: Option<string>, enabled: Option<bool>, action: Option<Action> := None, None, None;
    var conditions: seq<Condition> := [];
    var lines := Lines(text);
    for i := 0 to |lines|
      invariant ParseLines(EMPTY, lines, 1) == ParseLines(Draft(name, enabled, action, conditions), lines[i..], i + 1)
    {
      assert lines[i..][1..] == lines[i + 1..];
      var line := Trim(lines[i]);
      if Ignored(line) {
        continue;
      }
      var separator := IndexOf(line, '=');
      if separator < 1 {
        return Err(AtLine(i + 1, NotKeyValue));
      }
      var key, value := Trim(line[..separator]), Trim(line[separator + 1..]);
      if key == "name" {
        if name.Some? {
          return Err(AtLine(i + 1, Repeated(key)));
        }
        if value == [] {
          return Err(AtLine(i + 1, EmptyName));
        }
        name := Some(value);
        continue;
      }
      if key == "enabled" {
        if enabled.Some? {
          return Err(AtLine(i + 1, Repeated(key)));
        }
        enabled := ParseFlag(value);
        if enabled.None? {
          return Err(AtLine(i + 1, BadFlag));
        }
        continue;
      }
      if key == "action" {
        if action.Some? {
          return Err(AtLine(i + 1, Repeated(key)));
        }
        action := ParseAction(value);
        if action.None? {
          return Err(AtLine(i + 1, BadAction));
        }
        continue;
      }
      var kind := FindKind(key);
      if kind.None? {
        return Err(AtLine(i + 1, UnknownKey(key)));
      }
      if kind == Some(IpIsPrivate) {
        var flag := ParseFlag(value);
        if flag.None? {
          return Err(AtLine(i + 1, BadFlag));
        }
        if flag == Some(false) {
          return Err(AtLine(i + 1, PrivateMustBeTrue));
        }
        conditions := SetValues(conditions, IpIsPrivate, []);
        continue;
      }
      var values := SplitValues(value);
      if values == [] {
        return Err(AtLine(i + 1, NoValues(KeyOf(kind.value))));
      }
      conditions := SetValues(conditions, kind.value, Dedup(ValuesOf(conditions, kind.value) + values));
    }
    r := Finish(Draft(name, enabled, action, conditions));
  }

  // ----- the printer

  function ConditionLine(c: Condition): string {
    if c.kind == IpIsPrivate then "ip_is_private=true" else KeyOf(c.kind) + "=" + JoinValues(c.values)
  }

  function ConditionLines(conditions: seq<Condition>): seq<string> {
    seq(|conditions|, i requires 0 <= i < |conditions| => ConditionLine(conditions[i]))
  }

  function BodyLines(rule: Rule): seq<string> {
    ["name=" + rule.name, "enabled=" + FlagWord(rule.enabled), "action=" + ActionWord(rule.action)] +
        ConditionLines(rule.conditions)
  }

  method SerializeBody(rule: Rule) returns (lines: seq<string>)
    ensures lines == BodyLines(rule)
  {
    lines := ["name=" + rule.name, "enabled=" + FlagWord(rule.enabled), "action=" + ActionWord(rule.action)];
    ghost var head := lines;
    for i := 0 to |rule.conditions|
      invariant lines == head + ConditionLines(rule.conditions[..i])
    {
      var condition := rule.conditions[i];
      var line: string;
      if condition.kind == IpIsPrivate {
        line := "ip_is_private=true";
      } else {
        line := KeyOf(condition.kind) + "=" + JoinValues(condition.values);
      }
      assert ConditionLines(rule.conditions[..i + 1]) == ConditionLines(rule.conditions[..i]) + [line];
      lines := lines + [line];
    }
    TakeAll(rule.conditions);
  }

  const RULE_HEADER: seq<string> := [
    "# sing-box WebUI rule",
    "# 每行使用 key=value；空行和以 # 开头的行会被忽略",
    "# 同一条件的多个值用逗号分隔；不同条件之间需要同时满足（AND）"
  ]

  const NO_CONDITIONS := "# 当前规则没有可转换的条件，保存前请添加至少一个可用条件键"
  const SOURCE_HEADER := "# 上游原始规则（仅供参考，不参与保存）"

  const POOL_HEADER: seq<string> := [
    "# sing-box WebUI rule pool",
    "# 使用单独一行 --- 分隔每条规则；从上到下即为执行顺序",
    "# 文本为空表示清空规则池"
  ]

  function Commented(lines: seq<string>): seq<string> {
    seq(|lines|, i requires 0 <= i < |lines| => "# " + lines[i])
  }

  /** What follows the body: a hint for a rule without conditions and the upstream source as comments. */
  function TailLines(rule: Rule, source: string): seq<string> {
    (if rule.conditions == [] then [NO_CONDITIONS] else []) +
    (if source == [] then [] else ["", SOURCE_HEADER] + Commented(Lines(source)))
  }

  /** serializeRuleText; an empty source is an absent one. */
  function SerializeRule(rule: Rule, source: string): string {
    Join(RULE_HEADER + BodyLines(rule) + TailLines(rule, source)) + "\n"
  }

  function PoolLines(rules: seq<Rule>): seq<string>
    decreases |rules|
  {
    if rules == [] then POOL_HEADER
    else PoolLines(rules[..|rules| - 1]) + ["", "---"] + BodyLines(rules[|rules| - 1])
  }

  function SerializePool(rules: seq<Rule>): string {
    Join(PoolLines(rules)) + "\n"
  }

  method SerializeRulePoolText(rules: seq<Rule>) returns (text: string)
    ensures text == SerializePool(rules)
  {
    var lines := POOL_HEADER;
    for i := 0 to |rules|
      invariant lines == PoolLines(rules[..i])
    {
      var body := SerializeBody(rules[i]);
      TakeOneMore(rules, i);
      lines := lines + ["", "---"] + body;
    }
    TakeAll(rules);
    text := Join(lines) + "\n";
  }

  method SerializeRuleText(rule: Rule, source: string) returns (text: string)
    ensures text == SerializeRule(rule, source)
  {
    var body := SerializeBody(rule);
    var lines := RULE_HEADER + body;
    ghost var head := lines;
    if |rule.conditions| == 0 {
      lines := lines + [NO_CONDITIONS];
    }
    if source != [] {
      lines := lines + ["", SOURCE_HEADER] + Commented(Lines(source));
    }
    assert lines == head + TailLines(rule, source);
    text := Join(lines) + "\n";
  }

  // ----- pools

  const SEPARATOR := "---"

  /** The lines between separator lines; the last segment is still open. */
  function Segments(lines: seq<string>): (segments: seq<seq<string>>)
    ensures |segments| >= 1
    decreases |lines|
  {
    if lines == [] then [[]]
    else
      var before, line := Segments(lines[..|lines| - 1]), lines[|lines| - 1];
      if Trim(line) == SEPARATOR then before + [[]]
      else before[..|before| - 1] + [before[|before| - 1] + [line]]
  }

  predicate Meaningful(segment: seq<string>) {
    exists i :: 0 <= i < |segment| && !Ignored(Trim(segment[i]))
  }

  function RuleSegments(segments: seq<seq<string>>): seq<seq<string>>
    decreases |segments|
  {
    if segments == [] then []
    else
      var before, last := RuleSegments(segments[..|segments| - 1]), segments[|segments| - 1];
      if Meaningful(last) then before + [last] else before
  }

  function ParseSegments(segments: seq<seq<string>>): Result<seq<Rule>, PoolError>
    decreases |segments|
  {
    if segments == [] then Ok([])
    else
      var before :- ParseSegments(segments[..|segments| - 1]);
      match ParseRule(Join(segments[|segments| - 1]))
      case Err(e) => Err(InRule(|segments|, e))
      case Ok(rule) => Ok(before + [rule])
  }

  function ParsePool(text: string): Result<seq<Rule>, PoolError> {
    ParseSegments(RuleSegments(Segments(Lines(text))))
  }

  lemma {:induction false} ParseSegmentsStops(segments: seq<seq<string>>, i: nat)
    requires i <= |segments| && ParseSegments(segments[..i]).Err?
    ensures ParseSegments(segments) == ParseSegments(segments[..i])
    decreases |segments|
  {
    if i == |segments| {
      TakeAll(segments);
    } else {
      assert segments[..|segments| - 1][..i] == segments[..i];
      ParseSegmentsStops(segments[..|segments| - 1], i);
    }
  }

  method ParseRulePoolText(text: string) returns (r: Result<seq<Rule>, PoolError>)
    ensures r == ParsePool(text)
  {
    var lines := Lines(text);
    var segments: seq<seq<string>> := [[]];
    for i := 0 to |lines|
      invariant segments == Segments(lines[..i])
    {
      TakeOneMore(lines, i);
      if Trim(lines[i]) == SEPARATOR {
        segments := segments + [[]];
      } else {
        segments := segments[..|segments| - 1] + [segments[|segments| - 1] + [lines[i]]];
      }
    }
    TakeAll(lines);
    var ruleSegments := RuleSegments(segments);
    var rules: seq<Rule> := [];
    for i := 0 to |ruleSegments|
      invariant ParseSegments(ruleSegments[..i]) == Ok(rules)
    {
      TakeOneMore(ruleSegments, i);
      var parsed := ParseRuleText(Join(ruleSegments[i]));
      match parsed
      case Ok(rule) =>
        rules := rules + [rule];
      case Err(e) =>
        ParseSegmentsStops(ruleSegments, i + 1);
        return Err(InRule(i + 1, e));
    }
    TakeAll(ruleSegments);
    r := Ok(rules);
  }
}
