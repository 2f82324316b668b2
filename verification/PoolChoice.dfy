/**
 What pool health does, said about the probe histories alone: what is remembered of
 the last round, when a member is probed next, and which member is chosen.
 */
module PoolChoice {
  import opened Common
  import opened PoolHealth

  function Last(h: seq<Probe>): Probe
    requires h != []
  {
    h[|h| - 1]
  }

  /** The last round in which something passed. */
  function LastPassed(h: seq<Probe>): Option<Probe>
    decreases |h|
  {
    if h == [] then None else if Last(h).successes > 0 then Some(Last(h)) else LastPassed(h[..|h| - 1])
  }

  /** The latency is that of the last round in which something passed; the tests are those of the last round. */
  lemma {:induction false} LatencyIsOfTheLastPass(cfg: Config, tag: string, h: seq<Probe>)
    ensures
      var m := MemberAfter(cfg, tag, h);
      && m.tag == tag
      && m.latencyMS == (if LastPassed(h).Some? then LastPassed(h).value.latencyMS else 0)
      && m.passedTests == (if h != [] then Last(h).successes else 0)
      && m.totalTests == (if h != [] then Last(h).total else 0)
      && m.lastCheckedAt == (if h != [] then Last(h).at else 0)
    decreases |h|
  {
    if h != [] {
      LatencyIsOfTheLastPass(cfg, tag, h[..|h| - 1]);
    }
  }

  // ----- when a member is probed next

  /** After the first `k` rounds the member had just passed and was not quarantined. */
  ghost predicate ClearAfter(cfg: Config, h: seq<Probe>, k: int) {
    0 <= k <= |h| && !QuarantinedBy(cfg, h[..k]) && (k == 0 || h[k - 1].successes > 0)
  }

  ghost predicate LastClear(cfg: Config, h: seq<Probe>, k: int) {
    ClearAfter(cfg, h, k) && forall j :: ClearAfter(cfg, h, j) ==> j <= k
  }

  function FailedRounds(h: seq<Probe>): nat
    decreases |h|
  {
    if h == [] then 0 else FailedRounds(h[..|h| - 1]) + if Last(h).successes == 0 then 1 else 0
  }

  lemma ClearMore(cfg: Config, h: seq<Probe>, p: Probe)
    ensures forall k :: 0 <= k <= |h| ==> (ClearAfter(cfg, h + [p], k) <==> ClearAfter(cfg, h, k))
    ensures ClearAfter(cfg, h + [p], |h| + 1) <==> !QuarantinedBy(cfg, h + [p]) && p.successes > 0
  {
    forall k | 0 <= k <= |h| ensures (h + [p])[..k] == h[..k] {}
    assert (h + [p])[..|h| + 1] == h + [p];
  }

  lemma FailedMore(h: seq<Probe>, p: Probe, k: nat)
    requires k <= |h|
    ensures FailedRounds((h + [p])[k..]) == FailedRounds(h[k..]) + if p.successes == 0 then 1 else 0
  {
    assert (h + [p])[k..] == h[k..] + [p];
    DropLast(h[k..], p);
  }

  /** The failures that count are those since the member was last clear. */
  lemma {:induction false} FailuresSinceClear(cfg: Config, tag: string, h: seq<Probe>) returns (k: nat)
    requires ValidConfig(cfg)
    ensures LastClear(cfg, h, k) && MemberAfter(cfg, tag, h).failures == FailedRounds(h[k..])
    decreases |h|
  {
    if h == [] {
      k := 0;
      assert h[..0] == h && !QuarantinedBy(cfg, h);
    } else {
      var before, p := h[..|h| - 1], Last(h);
      SplitLast(h);
      var former := FailuresSinceClear(cfg, tag, before);
      CountersMatchHistory(cfg, tag, before);
      CountersMatchHistory(cfg, tag, h);
      ClearMore(cfg, before, p);
      if ClearAfter(cfg, h, |h|) {
        k := |h|;
        assert h[k..] == [];
      } else {
        k := former;
        FailedMore(before, p, k);
      }
    }
  }

  /** How long after its last round a member is probed again. */
  function Wait(cfg: Config, quarantined: bool, passed: bool, failures: int): int {
    if quarantined then
      if passed then 1_000_000_000
      else Backoff(Max(failures - cfg.consecutiveFailures, 0), cfg.maxBackoff)
    else if passed then cfg.interval
    else 1_000_000_000
  }

  /**
   The next probe, from the history alone: the interval after a pass, a second while it fails or recovers, and in
   quarantine the backoff for the failures since it was last clear.
   */
  lemma NextProbeFollowsTheHistory(cfg: Config, tag: string, h: seq<Probe>) returns (k: nat)
    requires ValidConfig(cfg) && h != []
    ensures LastClear(cfg, h, k)
    ensures
      MemberAfter(cfg, tag, h).nextProbeAt ==
        Last(h).at + Wait(cfg, QuarantinedBy(cfg, h), Last(h).successes > 0, FailedRounds(h[k..]))
  {
    k := FailuresSinceClear(cfg, tag, h);
    CountersMatchHistory(cfg, tag, h);
    CountersMatchHistory(cfg, tag, h[..|h| - 1]);
  }

  // ----- which member is chosen

  /** All tests of the round passed, and fast enough. */
  predicate Full(cfg: Config, p: Probe) {
    p.successes == p.total && p.latencyMS * 1_000_000 < cfg.highLatencyThreshold
  }

  /** The order of preference: full rounds first, then more passed tests, lower latency, and the smaller tag. */
  predicate Ahead(cfg: Config, a: string, p: Probe, b: string, q: Probe) {
    if Full(cfg, p) != Full(cfg, q) then Full(cfg, p)
    else if p.successes != q.successes then p.successes > q.successes
    else if p.latencyMS != q.latencyMS then p.latencyMS < q.latencyMS
    else StringLess(a, b)
  }

  /** Of the members that can serve, this one is ahead of all others after their last rounds. */
  ghost predicate AheadOfAll(cfg: Config, histories: map<string, seq<Probe>>, best: string) {
    && best in histories && CanServe(cfg, histories[best])
    && forall t :: t in histories && t != best && CanServe(cfg, histories[t]) ==>
         Ahead(cfg, best, Last(histories[best]), t, Last(histories[t]))
  }

  /** The last round of `p` is as full as that of `q`, passed as many tests, and is at most the tolerance slower. */
  predicate CloseTo(cfg: Config, p: Probe, q: Probe) {
    && Full(cfg, p) == Full(cfg, q) && p.successes == q.successes
    && p.latencyMS <= q.latencyMS + cfg.tolerance / 1_000_000
  }

  lemma ServingMember(cfg: Config, members: map<string, Member>, histories: map<string, seq<Probe>>, t: string)
    requires ValidConfig(cfg) && Reachable(cfg, members, histories) && t in members
    ensures Eligible(members[t]) <==> CanServe(cfg, histories[t])
    ensures CanServe(cfg, histories[t]) ==>
              var m, p := members[t], Last(histories[t]);
              && m.tag == t && m.passedTests == p.successes && m.latencyMS == p.latencyMS
              && 1 <= p.latencyMS <= 0x4000_0000_0000_0000 && (m.status == Healthy <==> Full(cfg, p))
              && (m.status == Healthy || m.status == Degraded)
  {
    EligibleMeansCanServe(cfg, members, histories, t);
    LatencyIsOfTheLastPass(cfg, t, histories[t]);
    StatusMeansHistory(cfg, t, histories[t]);
  }

  lemma BetterIsAhead(cfg: Config, members: map<string, Member>, histories: map<string, seq<Probe>>, a: string,
      b: string)
    requires ValidConfig(cfg) && Reachable(cfg, members, histories) && a in members && b in members
    requires CanServe(cfg, histories[a]) && CanServe(cfg, histories[b])
    ensures Better(members[a], members[b]) <==> Ahead(cfg, a, Last(histories[a]), b, Last(histories[b]))
  {
    ServingMember(cfg, members, histories, a);
    ServingMember(cfg, members, histories, b);
  }

  lemma BestIsAheadOfAll(cfg: Config, members: map<string, Member>, histories: map<string, seq<Probe>>, best: string)
    requires ValidConfig(cfg) && Reachable(cfg, members, histories)
    ensures IsBest(members, best) <==> AheadOfAll(cfg, histories, best)
  {
    if best in members {
      ServingMember(cfg, members, histories, best);
      forall t | t in members && CanServe(cfg, histories[best])
        ensures Eligible(members[t]) <==> CanServe(cfg, histories[t])
        ensures CanServe(cfg, histories[t]) ==>
                  (Better(members[best], members[t]) <==>
                   Ahead(cfg, best, Last(histories[best]), t, Last(histories[t])))
      {
        ServingMember(cfg, members, histories, t);
        if CanServe(cfg, histories[t]) {
          BetterIsAhead(cfg, members, histories, best, t);
        }
      }
    }
  }

  /** What is chosen, from the histories and the current choice. */
  ghost predicate Chosen(cfg: Config, histories: map<string, seq<Probe>>, current: string, answer: string) {
    if forall t :: t in histories ==> !CanServe(cfg, histories[t]) then answer == "block"
    else
      exists best :: AheadOfAll(cfg, histories, best)
        && answer ==
             if current in histories && CanServe(cfg, histories[current])
                && CloseTo(cfg, Last(histories[current]), Last(histories[best]))
             then current else best
  }

  lemma KeptIfClose(cfg: Config, members: map<string, Member>, histories: map<string, seq<Probe>>,
      current: string, best: string)
    requires ValidConfig(cfg) && Reachable(cfg, members, histories)
    requires AheadOfAll(cfg, histories, best)
    ensures
      Keep(cfg, members, current, members[best]) ==
        if current in histories && CanServe(cfg, histories[current])
           && CloseTo(cfg, Last(histories[current]), Last(histories[best]))
        then current else best
  {
    ServingMember(cfg, members, histories, best);
    if current in members {
      ServingMember(cfg, members, histories, current);
      EligibleMeansCanServe(cfg, members, histories, current);
    }
  }

  /**
   In every reachable state the answer is block if no member can serve; otherwise the current member if its last
   round is close to that of the best one, and else the best one.
   */
  lemma SelectionFollowsTheHistories(
    cfg: Config, members: map<string, Member>, histories: map<string, seq<Probe>>, current: string)
    requires ValidConfig(cfg) && Reachable(cfg, members, histories)
    ensures Chosen(cfg, histories, current, Select(cfg, members, current))
  {
    forall t | t in members ensures members[t].tag == t && (Eligible(members[t]) <==> CanServe(cfg, histories[t])) {
      EligibleMeansCanServe(cfg, members, histories, t);
    }
    BestExists(members);
    if best :| IsBest(members, best) {
      BestIsAheadOfAll(cfg, members, histories, best);
      SelectFromBest(cfg, members, current, best);
      KeptIfClose(cfg, members, histories, current, best);
    }
  }

  // ----- runs

  /** The results that are addressed to a tag, in their order. */
  function ProbesFor(results: seq<TaggedProbe>, tag: string): seq<Probe>
    decreases |results|
  {
    if results == [] then []
    else
      var before, last := ProbesFor(results[..|results| - 1], tag), results[|results| - 1];
      if last.tag == tag then before + [last.probe] else before
  }

  /** A round adds to each history the results addressed to its tag. */
  lemma {:induction false} RecordedProbes(histories: map<string, seq<Probe>>, results: seq<TaggedProbe>)
    ensures Record(histories, results).Keys == histories.Keys
    ensures forall t :: t in histories ==> Record(histories, results)[t] == histories[t] + ProbesFor(results, t)
    decreases |results|
  {
    if results != [] {
      RecordedProbes(histories, results[..|results| - 1]);
    }
  }

  lemma RunViewMore(cfg: Config, tags: set<string>, now: int, events: seq<Event>, e: Event)
    ensures RunView(cfg, tags, now, events + [e]) == Step(cfg, RunView(cfg, tags, now, events), e)
    ensures
      RunHistories(tags, events + [e]) ==
        if e.Round? then Record(RunHistories(tags, events), e.results) else RunHistories(tags, events)
  {
    DropLast(events, e);
  }

  /**
   What a round writes after any run: block if no member can serve, the core's url test when idle, and otherwise what
   the histories choose; and if it could not be written the former choice stands.
   */
  lemma RoundChooses(cfg: Config, tags: set<string>, now: int, events: seq<Event>, e: Event)
    requires ValidConfig(cfg) && ValidRun(events + [e]) && e.Round? && "block" !in tags
    ensures
      var before, v := RunView(cfg, tags, now, events), RunView(cfg, tags, now, events + [e]);
      var histories := RunHistories(tags, events + [e]);
      && v.idle == before.idle
      && (!e.written ==> v.selected == before.selected)
      && (e.written && !v.idle ==> Chosen(cfg, histories, before.selected, v.selected))
      && (e.written && v.idle ==>
            v.selected == if forall t :: t in histories ==> !CanServe(cfg, histories[t]) then "block" else "auto")
  {
    RunIsReachable(cfg, tags, now, events + [e]);
    RunViewMore(cfg, tags, now, events, e);
    var before, v := RunView(cfg, tags, now, events), RunView(cfg, tags, now, events + [e]);
    var histories := RunHistories(tags, events + [e]);
    SelectionFollowsTheHistories(cfg, v.members, histories, before.selected);
    SelectionIsSound(cfg, v.members, histories, before.selected);
  }

  /** Entering idle hands the choice to the core's url test; leaving it makes every member due, and nothing else. */
  lemma IdleChanges(cfg: Config, tags: set<string>, now: int, events: seq<Event>, e: Event)
    requires !e.Round?
    ensures
      var before, v := RunView(cfg, tags, now, events), RunView(cfg, tags, now, events + [e]);
      && v.idle == e.EnterIdle?
      && v.selected == (if e.EnterIdle? && !before.idle && e.written then "auto" else before.selected)
      && v.members.Keys == before.members.Keys
      && forall t :: t in v.members ==>
           v.members[t] ==
             if e.LeaveIdle? && before.idle then before.members[t].(nextProbeAt := e.now) else before.members[t]
  {
    RunViewMore(cfg, tags, now, events, e);
  }

  /** The schedule of a member after a whole run. */
  ghost predicate DueAsRecorded(cfg: Config, tag: string, before: Member, m: Member, h: seq<Probe>, probed: bool) {
    m.nextProbeAt == if probed then MemberAfter(cfg, tag, h).nextProbeAt else before.nextProbeAt
  }

  lemma {:induction false} ScheduleOfRound(
    cfg: Config, members: map<string, Member>, histories: map<string, seq<Probe>>, results: seq<TaggedProbe>, t: string)
    requires Reachable(cfg, members, histories) && t in members
    requires forall i :: 0 <= i < |results| ==> ValidProbe(results[i].probe)
    ensures ApplyAll(cfg, members, results).Keys == members.Keys == Record(histories, results).Keys
    ensures
      DueAsRecorded(cfg, t, members[t], ApplyAll(cfg, members, results)[t], Record(histories, results)[t],
                    ProbesFor(results, t) != [])
    decreases |results|
  {
    RecordedProbes(histories, results);
    ApplyAllKeepsKeys(cfg, members, results);
    if results != [] {
      var rest, r := results[..|results| - 1], results[|results| - 1];
      RoundStaysReachable(cfg, members, histories, rest);
      ScheduleOfRound(cfg, members, histories, rest, t);
      var ms, hs := ApplyAll(cfg, members, rest), Record(histories, rest);
      if r.tag == t {
        DropLast(hs[t], r.probe);
        ApplyIgnoresSchedule(cfg, ms[t], MemberAfter(cfg, t, hs[t]), r.probe);
      }
    }
  }

  /** On every run a round leaves whom it probed due as their histories say, and everybody else as they were. */
  lemma RoundSchedules(cfg: Config, tags: set<string>, now: int, events: seq<Event>, e: Event, t: string)
    requires ValidConfig(cfg) && ValidRun(events + [e]) && e.Round? && t in tags
    ensures
      var before, v := RunView(cfg, tags, now, events), RunView(cfg, tags, now, events + [e]);
      var histories := RunHistories(tags, events + [e]);
      && t in before.members && t in v.members && t in histories
      && DueAsRecorded(cfg, t, before.members[t], v.members[t], histories[t], ProbesFor(e.results, t) != [])
  {
    var all := events + [e];
    assert all[..|all| - 1] == events && all[|events|] == e;
    forall i | 0 <= i < |events| ensures events[i] == all[i] {}
    RunIsReachable(cfg, tags, now, events);
    RunViewMore(cfg, tags, now, events, e);
    ScheduleOfRound(cfg, RunView(cfg, tags, now, events).members, RunHistories(tags, events), e.results, t);
  }
}
