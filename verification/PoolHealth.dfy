/**
 Member health and outbound selection (internal/poolhealth/manager.go): the
 counters that quarantine and release a pool member, the retry backoff, and the
 selector that prefers to keep what it already chose.
 */
module PoolHealth {
  import opened Common

  const SECOND := 1_000_000_000
  const MILLISECOND := 1_000_000
  const FAST_RETRY := SECOND
  const INITIAL_BACKOFF := 15 * SECOND
  const MAX_INT64 := 0x7fff_ffff_ffff_ffff

  /** time.Duration: nanoseconds in a signed 64-bit integer. */
  newtype Duration = d: int | -0x8000_0000_0000_0000 <= d < 0x8000_0000_0000_0000

  datatype Status = Unknown | Healthy | Degraded | Quarantined

  /** Durations are in nanoseconds. */
  datatype Config = Config(
    interval: int, tolerance: int, highLatencyThreshold: int,
    consecutiveFailures: int, recoverySuccesses: int, maxBackoff: int)

  /** What validateConfig demands of the policy, and what the duration type allows. */
  predicate ValidConfig(cfg: Config) {
    && 0 < cfg.interval
    && 0 <= cfg.tolerance <= MAX_INT64
    && 0 < cfg.highLatencyThreshold
    && cfg.consecutiveFailures >= 1
    && cfg.recoverySuccesses >= 1
    && cfg.maxBackoff >= INITIAL_BACKOFF
  }

  /** One member's share of a finished probe round. */
  datatype Probe = Probe(successes: nat, total: nat, latencyMS: int, at: int)

  /**
   What a round that returned no error delivers: at least one URL was tried and
   a member that passed has the average of positive delays, bounded so that
   sums of delays fit a signed 64-bit integer.
   */
  predicate ValidProbe(p: Probe) {
    && p.successes <= p.total
    && p.total >= 1
    && (p.successes > 0 ==> 1 <= p.latencyMS <= 0x4000_0000_0000_0000)
  }

  ghost predicate ValidHistory(h: seq<Probe>) {
    forall k :: 0 <= k < |h| ==> ValidProbe(h[k])
  }

  datatype Member = Member(
    tag: string, status: Status, latencyMS: int, passedTests: nat, totalTests: nat,
    failures: nat, recoverySuccesses: nat, lastCheckedAt: int, nextProbeAt: int)

  function NewMember(tag: string, now: int): Member {
    Member(tag, Unknown, 0, 0, 0, 0, 0, 0, now)
  }

  // ----- backoff

  /**
   The delay before a quarantined member is probed again: 15 seconds doubled
   `exponent` times and capped, except that a maximum one nanosecond above the
   uncapped value is rounded up to.
   */
  function Backoff(exponent: nat, maximum: int): int {
    var doubled := INITIAL_BACKOFF * Pow2(exponent);
    if exponent >= 1 && maximum == doubled + 1 then maximum else Min(doubled, maximum)
  }

  method BackoffFor(exponent: nat, maximum: Duration) returns (delay: Duration)
    ensures delay as int == Backoff(exponent, maximum as int)
  {
    delay := 15_000_000_000;
    var i := 0;
    while i < exponent
      invariant i <= exponent
      invariant delay as int == INITIAL_BACKOFF * Pow2(i)
      invariant i >= 1 ==> delay as int <= maximum as int - 2
    {
      assert INITIAL_BACKOFF * Pow2(i + 1) == 2 * (INITIAL_BACKOFF * Pow2(i));
      if delay >= maximum / 2 {
        BackoffCapped(i, exponent, maximum as int);
        return maximum;
      }
      delay := delay * 2;
      i := i + 1;
    }
    if delay > maximum {
      return maximum;
    }
  }

  lemma {:induction false} BackoffCapped(i: nat, exponent: nat, maximum: int)
    requires i < exponent
    requires INITIAL_BACKOFF * Pow2(i) >= maximum / 2
    ensures Backoff(exponent, maximum) == maximum
    decreases exponent - i
  {
    assert INITIAL_BACKOFF * Pow2(i + 1) == 2 * (INITIAL_BACKOFF * Pow2(i));
    if i + 1 < exponent {
      BackoffCapped(i + 1, exponent, maximum);
    }
  }

  lemma {:induction false} Pow2Monotone(a: nat, b: nat)
    requires a <= b
    ensures Pow2(a) <= Pow2(b)
    decreases b - a
  {
    if a < b {
      Pow2Monotone(a + 1, b);
    }
  }

  /** The documented cap holds for every exponent exactly off one maximum per exponent, an odd one. */
  lemma {:induction false} BackoffIsCappedDoubling(exponent: nat, maximum: int)
    ensures Backoff(exponent, maximum) == Min(INITIAL_BACKOFF * Pow2(exponent), maximum)
            <==> !(exponent >= 1 && maximum == INITIAL_BACKOFF * Pow2(exponent) + 1)
    ensures maximum % 2 == 0 ==> Backoff(exponent, maximum) == Min(INITIAL_BACKOFF * Pow2(exponent), maximum)
  {
    if exponent >= 1 {
      assert INITIAL_BACKOFF * Pow2(exponent) == 2 * (INITIAL_BACKOFF * Pow2(exponent - 1));
    }
  }

  lemma BackoffMonotone(low: nat, high: nat, maximum: int)
    requires low <= high
    ensures Backoff(low, maximum) <= Backoff(high, maximum) <= maximum
  {
    Pow2Monotone(low, high);
    if low < high {
      Pow2Monotone(low + 1, high);
      assert INITIAL_BACKOFF * Pow2(low + 1) == 2 * (INITIAL_BACKOFF * Pow2(low));
      assert INITIAL_BACKOFF * Pow2(low + 1) <= INITIAL_BACKOFF * Pow2(high);
    }
  }

  // ----- the counter machine

  function IsPartial(cfg: Config, p: Probe): bool {
    p.successes < p.total || p.latencyMS * MILLISECOND >= cfg.highLatencyThreshold
  }

  /** applyResultLocked on one member. */
  function Apply(cfg: Config, m: Member, p: Probe): Member {
    var seen := m.(lastCheckedAt := p.at, passedTests := p.successes, totalTests := p.total);
    if p.successes == 0 then
      var failed := seen.(failures := m.failures + 1, recoverySuccesses := 0);
      if failed.failures >= cfg.consecutiveFailures then
        failed.(status := Quarantined,
                nextProbeAt := p.at + Backoff(Max(failed.failures - cfg.consecutiveFailures, 0), cfg.maxBackoff))
      else
        failed.(status := Degraded, nextProbeAt := p.at + FAST_RETRY)
    else
      var passed := seen.(latencyMS := p.latencyMS);
      if m.status == Quarantined && m.recoverySuccesses + 1 < cfg.recoverySuccesses then
        passed.(recoverySuccesses := m.recoverySuccesses + 1, nextProbeAt := p.at + FAST_RETRY)
      else
        passed.(failures := 0, recoverySuccesses := 0,
                status := if IsPartial(cfg, p) then Degraded else Healthy,
                nextProbeAt := p.at + cfg.interval)
  }

  /** The state of a member after a whole history of rounds. */
  function MemberAfter(cfg: Config, tag: string, h: seq<Probe>): Member
    decreases |h|
  {
    if h == [] then NewMember(tag, 0)
    else Apply(cfg, MemberAfter(cfg, tag, h[..|h| - 1]), h[|h| - 1])
  }

  // ----- the same thing said about the history alone

  ghost predicate ZeroRun(h: seq<Probe>, from: int, length: int) {
    0 <= from && 0 <= length && from + length <= |h| &&
    forall k :: from <= k < from + length ==> h[k].successes == 0
  }

  ghost predicate PassRun(h: seq<Probe>, from: int, length: int) {
    0 <= from && 0 <= length && from + length <= |h| &&
    forall k :: from <= k < from + length ==> h[k].successes > 0
  }

  /** A run of failed rounds that no later run of passed rounds has made up for. */
  ghost predicate QuarantinedBy(cfg: Config, h: seq<Probe>) {
    exists from :: ZeroRun(h, from, cfg.consecutiveFailures) &&
      forall later :: from + cfg.consecutiveFailures <= later ==> !PassRun(h, later, cfg.recoverySuccesses)
  }

  function TrailingZeros(h: seq<Probe>): (n: nat)
    ensures n <= |h|
    decreases |h|
  {
    if h == [] || h[|h| - 1].successes > 0 then 0 else 1 + TrailingZeros(h[..|h| - 1])
  }

  function TrailingPasses(h: seq<Probe>): (n: nat)
    ensures n <= |h|
    decreases |h|
  {
    if h == [] || h[|h| - 1].successes == 0 then 0 else 1 + TrailingPasses(h[..|h| - 1])
  }

  lemma {:induction false} TrailingZerosAreARun(h: seq<Probe>, n: nat)
    requires n <= |h|
    ensures TrailingZeros(h) >= n <==> ZeroRun(h, |h| - n, n)
    decreases |h|
  {
    if n > 0 {
      var before := h[..|h| - 1];
      TrailingZerosAreARun(before, n - 1);
      assert forall k :: 0 <= k < |before| ==> before[k] == h[k];
      if h[|h| - 1].successes == 0 && ZeroRun(before, |before| - (n - 1), n - 1) {
        assert ZeroRun(h, |h| - n, n);
      }
      if ZeroRun(h, |h| - n, n) {
        assert h[|h| - 1].successes == 0;
        assert ZeroRun(before, |before| - (n - 1), n - 1);
      }
    }
  }

  lemma {:induction false} TrailingPassesAreARun(h: seq<Probe>, n: nat)
    requires n <= |h|
    ensures TrailingPasses(h) >= n <==> PassRun(h, |h| - n, n)
    decreases |h|
  {
    if n > 0 {
      var before := h[..|h| - 1];
      TrailingPassesAreARun(before, n - 1);
      assert forall k :: 0 <= k < |before| ==> before[k] == h[k];
      if h[|h| - 1].successes > 0 && PassRun(before, |before| - (n - 1), n - 1) {
        assert PassRun(h, |h| - n, n);
      }
      if PassRun(h, |h| - n, n) {
        assert h[|h| - 1].successes > 0;
        assert PassRun(before, |before| - (n - 1), n - 1);
      }
    }
  }

  /** A failed round quarantines when it completes a run, and never releases. */
  lemma FailedRoundAndHistory(cfg: Config, h: seq<Probe>, p: Probe)
    requires ValidConfig(cfg) && p.successes == 0
    ensures QuarantinedBy(cfg, h + [p]) <==>
              QuarantinedBy(cfg, h) || TrailingZeros(h) + 1 >= cfg.consecutiveFailures
  {
    var f, r := cfg.consecutiveFailures, cfg.recoverySuccesses;
    var g := h + [p];
    assert g[..|g| - 1] == h;
    forall later ensures PassRun(g, later, r) <==> PassRun(h, later, r) {
      assert g[|h|].successes == 0;
      if PassRun(g, later, r) {
        assert later + r <= |h|;
        assert PassRun(h, later, r);
      }
    }
    if QuarantinedBy(cfg, g) {
      var from :| ZeroRun(g, from, f) && forall later :: from + f <= later ==> !PassRun(g, later, r);
      if from + f <= |h| {
        assert ZeroRun(h, from, f);
      } else {
        TrailingZerosAreARun(g, f);
        assert TrailingZeros(g) >= f;
      }
    }
    if QuarantinedBy(cfg, h) {
      var from :| ZeroRun(h, from, f) && forall later :: from + f <= later ==> !PassRun(h, later, r);
      assert ZeroRun(g, from, f);
    } else if TrailingZeros(h) + 1 >= f {
      TrailingZerosAreARun(g, f);
      assert ZeroRun(g, |g| - f, f);
      assert forall later :: |g| - f + f <= later ==> !PassRun(g, later, r);
    }
  }

  /** A passed round never quarantines, and releases when it completes a run. */
  lemma PassedRoundAndHistory(cfg: Config, h: seq<Probe>, p: Probe)
    requires ValidConfig(cfg) && p.successes > 0
    ensures QuarantinedBy(cfg, h + [p]) <==>
              QuarantinedBy(cfg, h) && TrailingPasses(h) + 1 < cfg.recoverySuccesses
  {
    var f, r := cfg.consecutiveFailures, cfg.recoverySuccesses;
    var g := h + [p];
    assert g[..|g| - 1] == h;
    assert TrailingPasses(g) == TrailingPasses(h) + 1;
    if QuarantinedBy(cfg, g) {
      var from :| ZeroRun(g, from, f) && forall later :: from + f <= later ==> !PassRun(g, later, r);
      assert g[from + f - 1].successes == 0;
      assert from + f <= |h|;
      assert ZeroRun(h, from, f);
      forall later | from + f <= later ensures !PassRun(h, later, r) {
        assert PassRun(h, later, r) ==> PassRun(g, later, r);
      }
      if r <= |g| {
        TrailingPassesAreARun(g, r);
        assert !PassRun(g, |g| - r, r);
      }
    }
    if QuarantinedBy(cfg, h) && TrailingPasses(h) + 1 < r {
      var from :| ZeroRun(h, from, f) && forall later :: from + f <= later ==> !PassRun(h, later, r);
      assert ZeroRun(g, from, f);
      if r <= |g| {
        TrailingPassesAreARun(g, r);
      }
      forall later | from + f <= later ensures !PassRun(g, later, r) {
        assert later + r <= |h| ==> (PassRun(g, later, r) <==> PassRun(h, later, r));
        assert later + r == |g| ==> later == |g| - r;
      }
    }
  }

  ghost predicate CountersMatch(cfg: Config, m: Member, h: seq<Probe>) {
    && (m.status == Quarantined <==> QuarantinedBy(cfg, h))
    && (m.status == Quarantined ==>
          m.recoverySuccesses == TrailingPasses(h) < cfg.recoverySuccesses && m.failures >= cfg.consecutiveFailures)
    && (m.status != Quarantined ==>
          m.failures == TrailingZeros(h) < cfg.consecutiveFailures && m.recoverySuccesses == 0)
  }

  lemma {:induction false} CountersMatchHistory(cfg: Config, tag: string, h: seq<Probe>)
    requires ValidConfig(cfg)
    ensures CountersMatch(cfg, MemberAfter(cfg, tag, h), h)
    decreases |h|
  {
    if h != [] {
      var before, p := h[..|h| - 1], h[|h| - 1];
      CountersMatchHistory(cfg, tag, before);
      assert h == before + [p];
      if p.successes == 0 {
        FailedRoundAndHistory(cfg, before, p);
      } else {
        PassedRoundAndHistory(cfg, before, p);
      }
    }
  }

  ghost predicate PassedFully(cfg: Config, p: Probe) {
    p.successes > 0 && !IsPartial(cfg, p)
  }

  /**
   The status is exactly what the history says: quarantined for an unredeemed
   run of failures, otherwise decided by the last round alone.
   */
  lemma StatusMeansHistory(cfg: Config, tag: string, h: seq<Probe>)
    requires ValidConfig(cfg)
    ensures
      var m := MemberAfter(cfg, tag, h);
      && (m.status == Unknown <==> h == [])
      && (m.status == Quarantined <==> QuarantinedBy(cfg, h))
      && (m.status == Healthy <==> h != [] && !QuarantinedBy(cfg, h) && PassedFully(cfg, h[|h| - 1]))
      && (m.status == Degraded <==> h != [] && !QuarantinedBy(cfg, h) && !PassedFully(cfg, h[|h| - 1]))
      && (h != [] ==> m.passedTests == h[|h| - 1].successes && m.totalTests == h[|h| - 1].total)
  {
    CountersMatchHistory(cfg, tag, h);
    if h != [] {
      CountersMatchHistory(cfg, tag, h[..|h| - 1]);
    } else {
      assert !QuarantinedBy(cfg, h);
    }
  }

  /** Every checked member has a next probe, no later than the interval or the largest backoff. */
  lemma {:induction false} NextProbeIsBounded(cfg: Config, tag: string, h: seq<Probe>)
    requires ValidConfig(cfg) && h != []
    ensures
      var m := MemberAfter(cfg, tag, h);
      m.lastCheckedAt == h[|h| - 1].at < m.nextProbeAt <= m.lastCheckedAt + Max(cfg.interval, cfg.maxBackoff)
  {
    var m := MemberAfter(cfg, tag, h);
    var e := Max(m.failures - cfg.consecutiveFailures, 0);
    BackoffMonotone(0, e, cfg.maxBackoff);
  }

  // ----- the selector

  const BLOCK := "block"
  const AUTO := "auto"

  predicate Eligible(m: Member) {
    (m.status == Healthy || m.status == Degraded) && (m.totalTests == 0 || m.passedTests > 0)
  }

  function EffectiveLatency(m: Member): int {
    if m.latencyMS <= 0 then MAX_INT64 else m.latencyMS
  }

  /** Addition of signed 64-bit integers. */
  function Add64(a: int, b: int): int {
    (a + b + 0x8000_0000_0000_0000) % 0x1_0000_0000_0000_0000 - 0x8000_0000_0000_0000
  }

  predicate StringLess(a: string, b: string) {
    b != [] && (a == [] || a[0] < b[0] || (a[0] == b[0] && StringLess(a[1..], b[1..])))
  }

  lemma {:induction false} StringLessIsTotal(a: string, b: string)
    ensures StringLess(a, b) || StringLess(b, a) || a == b
    ensures !(StringLess(a, b) && StringLess(b, a))
  {
    if a != [] && b != [] && a[0] == b[0] {
      StringLessIsTotal(a[1..], b[1..]);
      assert a == [a[0]] + a[1..] && b == [b[0]] + b[1..];
    }
  }

  lemma {:induction false} StringLessIsTransitive(a: string, b: string, c: string)
    requires StringLess(a, b) && StringLess(b, c)
    ensures StringLess(a, c)
  {
    if a != [] && a[0] == b[0] == c[0] {
      StringLessIsTransitive(a[1..], b[1..], c[1..]);
    }
  }

  /** The comparator that bestSelectionLocked sorts with. */
  predicate Better(a: Member, b: Member) {
    if a.status != b.status then a.status == Healthy
    else if a.passedTests != b.passedTests then a.passedTests > b.passedTests
    else if EffectiveLatency(a) != EffectiveLatency(b) then EffectiveLatency(a) < EffectiveLatency(b)
    else StringLess(a.tag, b.tag)
  }

  lemma BetterIsTotal(a: Member, b: Member)
    requires Eligible(a) && Eligible(b)
    ensures a.tag != b.tag ==> Better(a, b) || Better(b, a)
    ensures !(Better(a, b) && Better(b, a))
  {
    StringLessIsTotal(a.tag, b.tag);
  }

  lemma BetterIsTransitive(a: Member, b: Member, c: Member)
    requires Eligible(a) && Eligible(b) && Eligible(c)
    requires Better(a, b) && Better(b, c)
    ensures Better(a, c)
  {
    if StringLess(a.tag, b.tag) && StringLess(b.tag, c.tag) {
      StringLessIsTransitive(a.tag, b.tag, c.tag);
    }
  }

  ghost predicate WellTagged(members: map<string, Member>) {
    forall t :: t in members ==> members[t].tag == t
  }

  ghost predicate IsBest(members: map<string, Member>, best: string) {
    && best in members
    && Eligible(members[best])
    && forall t :: t in members && t != best && Eligible(members[t]) ==> Better(members[best], members[t])
  }

  lemma BestIsUnique(members: map<string, Member>, a: string, b: string)
    requires IsBest(members, a) && IsBest(members, b)
    ensures a == b
  {
    if a != b {
      BetterIsTotal(members[a], members[b]);
    }
  }

  /** sort.SliceStable: any sorted arrangement has the same first element. */
  function Insert(m: Member, sorted: seq<Member>): (r: seq<Member>)
    ensures forall x :: x in r <==> x == m || x in sorted
    ensures r != []
  {
    if sorted == [] then [m]
    else if Better(m, sorted[0]) then [m] + sorted
    else [sorted[0]] + Insert(m, sorted[1..])
  }

  function Sort(candidates: seq<Member>): (r: seq<Member>)
    ensures forall x :: x in r <==> x in candidates
    ensures candidates != [] ==> r != []
  {
    if candidates == [] then []
    else Insert(candidates[|candidates| - 1], Sort(candidates[..|candidates| - 1]))
  }

  lemma {:induction false} SortPutsBestFirst(candidates: seq<Member>)
    requires candidates != []
    requires forall x :: x in candidates ==> Eligible(x)
    requires forall x, y :: x in candidates && y in candidates && x != y ==> x.tag != y.tag
    ensures forall x :: x in candidates && x != Sort(candidates)[0] ==> Better(Sort(candidates)[0], x)
    decreases |candidates|
  {
    var last, rest := candidates[|candidates| - 1], candidates[..|candidates| - 1];
    SplitLast(candidates);
    if rest != [] {
      SortPutsBestFirst(rest);
      var first := Sort(rest)[0];
      assert first in rest;
      if Better(last, first) {
        forall x | x in rest && x != first ensures Better(last, x) {
          BetterIsTransitive(last, first, x);
        }
      } else if last != first {
        BetterIsTotal(last, first);
      }
    }
  }

  ghost predicate SomeEligible(members: map<string, Member>) {
    exists t :: t in members && Eligible(members[t])
  }

  lemma {:induction false} BestExistsAmong(members: map<string, Member>, tags: set<string>) returns (best: string)
    requires WellTagged(members) && tags <= members.Keys && tags != {}
    requires forall t :: t in tags ==> Eligible(members[t])
    ensures best in tags
    ensures forall t :: t in tags && t != best ==> Better(members[best], members[t])
    decreases |tags|
  {
    var one :| one in tags;
    best := one;
    if tags - {one} != {} {
      var other := BestExistsAmong(members, tags - {one});
      BetterIsTotal(members[one], members[other]);
      best := if Better(members[other], members[one]) then other else one;
      forall t | t in tags && t != best ensures Better(members[best], members[t]) {
        if best == one && t != other {
          assert t in tags - {one};
          BetterIsTransitive(members[one], members[other], members[t]);
        }
      }
    } else {
      forall t | t in tags ensures t == best {
        assert t !in tags - {one};
      }
    }
  }

  lemma BestExists(members: map<string, Member>)
    requires WellTagged(members)
    ensures SomeEligible(members) <==> exists t :: IsBest(members, t)
  {
    if SomeEligible(members) {
      var tags := set t | t in members && Eligible(members[t]);
      var witnessTag :| witnessTag in members && Eligible(members[witnessTag]);
      assert witnessTag in tags;
      var best := BestExistsAmong(members, tags);
      assert IsBest(members, best);
    }
  }

  /** bestSelectionLocked, free of the order in which the map is walked. */
  ghost function Select(cfg: Config, members: map<string, Member>, selected: string): string {
    if !(exists t :: IsBest(members, t)) then BLOCK
    else
      var t :| IsBest(members, t);
      Keep(cfg, members, selected, members[t])
  }

  /** The hysteresis: the current choice stays unless the best candidate beats it clearly. */
  function Keep(cfg: Config, members: map<string, Member>, selected: string, best: Member): string {
    if selected !in members
      || (members[selected].status != Healthy && members[selected].status != Degraded) then best.tag
    else
      var current := members[selected];
      if current.status != best.status then best.tag
      else if current.passedTests != best.passedTests then best.tag
      else if EffectiveLatency(current) <= Add64(EffectiveLatency(best), cfg.tolerance / MILLISECOND) then current.tag
      else best.tag
  }

  lemma SelectFromBest(cfg: Config, members: map<string, Member>, selected: string, best: string)
    requires IsBest(members, best)
    ensures Select(cfg, members, selected) == Keep(cfg, members, selected, members[best])
  {
    forall t | IsBest(members, t) ensures t == best {
      BestIsUnique(members, t, best);
    }
  }

  /** What a round writes to the selector; an idle pool is left to the core's own url test. */
  ghost function RoundSelection(cfg: Config, members: map<string, Member>, selected: string, idle: bool): string {
    var selection := Select(cfg, members, selected);
    if idle && selection != BLOCK then AUTO else selection
  }

  /** What the tests of a member's latest round allow it to carry traffic on. */
  ghost predicate CanServe(cfg: Config, h: seq<Probe>) {
    h != [] && h[|h| - 1].successes > 0 && !QuarantinedBy(cfg, h)
  }

  /** Members whose counters are those of their own histories; when they are next probed is free. */
  ghost predicate Reachable(cfg: Config, members: map<string, Member>, histories: map<string, seq<Probe>>) {
    && members.Keys == histories.Keys
    && forall t :: t in members ==>
        && ValidHistory(histories[t])
        && members[t] == MemberAfter(cfg, t, histories[t]).(nextProbeAt := members[t].nextProbeAt)
  }

  lemma {:induction false} MemberKeepsTag(cfg: Config, tag: string, h: seq<Probe>)
    requires ValidHistory(h)
    ensures MemberAfter(cfg, tag, h).tag == tag
    ensures
      var m := MemberAfter(cfg, tag, h);
      m.passedTests > 0 ==> 1 <= m.latencyMS <= 0x4000_0000_0000_0000
    decreases |h|
  {
    if h != [] {
      MemberKeepsTag(cfg, tag, h[..|h| - 1]);
      assert ValidProbe(h[|h| - 1]);
    }
  }

  lemma EligibleMeansCanServe(cfg: Config, members: map<string, Member>, histories: map<string, seq<Probe>>, t: string)
    requires ValidConfig(cfg) && Reachable(cfg, members, histories) && t in members
    ensures members[t].tag == t
    ensures Eligible(members[t]) <==> CanServe(cfg, histories[t])
    ensures Eligible(members[t]) ==> members[t].passedTests > 0 && 1 <= members[t].latencyMS <= 0x4000_0000_0000_0000
  {
    MemberKeepsTag(cfg, t, histories[t]);
    StatusMeansHistory(cfg, t, histories[t]);
    if histories[t] != [] {
      assert ValidProbe(histories[t][|histories[t]| - 1]);
    }
  }

  /**
   In every reachable state: block exactly when no member can serve, otherwise
   a member that can, also when the current one is kept; selecting again
   changes nothing.
   */
  lemma SelectionIsSound(cfg: Config, members: map<string, Member>, histories: map<string, seq<Probe>>,
      selected: string)
    requires ValidConfig(cfg) && Reachable(cfg, members, histories) && BLOCK !in members
    ensures
      var s := Select(cfg, members, selected);
      && (s == BLOCK <==> forall t :: t in members ==> !CanServe(cfg, histories[t]))
      && (s != BLOCK ==> s in members && CanServe(cfg, histories[s]))
      && Select(cfg, members, s) == s
  {
    forall t | t in members
      ensures members[t].tag == t && (Eligible(members[t]) <==> CanServe(cfg, histories[t])) {
      EligibleMeansCanServe(cfg, members, histories, t);
    }
    BestExists(members);
    if exists t :: IsBest(members, t) {
      var best :| IsBest(members, best);
      EligibleMeansCanServe(cfg, members, histories, best);
      SelectFromBest(cfg, members, selected, best);
      var s := Select(cfg, members, selected);
      assert s == best || s == selected;
      SelectFromBest(cfg, members, s, best);
    }
  }

  /** What holds of the members whatever was probed. */
  ghost predicate Sane(members: map<string, Member>) {
    forall t :: t in members ==>
      && members[t].tag == t
      && (Eligible(members[t]) ==> members[t].passedTests > 0 && 1 <= members[t].latencyMS <= 0x4000_0000_0000_0000)
  }

  lemma ReachableIsSane(cfg: Config, members: map<string, Member>, histories: map<string, seq<Probe>>)
    requires ValidConfig(cfg) && Reachable(cfg, members, histories)
    ensures Sane(members)
  {
    forall t | t in members
      ensures members[t].tag == t
      ensures Eligible(members[t]) ==> 1 <= members[t].latencyMS <= 0x4000_0000_0000_0000 && members[t].passedTests > 0
    {
      EligibleMeansCanServe(cfg, members, histories, t);
    }
  }

  ghost predicate HealthierExists(members: map<string, Member>, c: Member) {
    c.status == Degraded && exists t :: t in members && Eligible(members[t]) && members[t].status == Healthy
  }

  ghost predicate PassesMoreExists(members: map<string, Member>, c: Member) {
    exists t :: t in members && Eligible(members[t]) && members[t].status == c.status
        && members[t].passedTests > c.passedTests
  }

  predicate ClearlyFaster(cfg: Config, b: Member, c: Member) {
    b.status == c.status && b.passedTests == c.passedTests && c.latencyMS > b.latencyMS + cfg.tolerance / MILLISECOND
  }

  ghost predicate ClearlyFasterExists(cfg: Config, members: map<string, Member>, c: Member) {
    exists t :: t in members && Eligible(members[t]) && ClearlyFaster(cfg, members[t], c)
  }

  /** If anybody in the same class with as many passes is clearly faster, then so is the best candidate. */
  lemma FasterThanTheBest(cfg: Config, members: map<string, Member>, current: string, best: string)
    requires ValidConfig(cfg) && Sane(members) && IsBest(members, best)
    requires current in members && Eligible(members[current])
    requires members[best].status == members[current].status
    requires members[best].passedTests == members[current].passedTests
    ensures ClearlyFasterExists(cfg, members, members[current]) <==> ClearlyFaster(cfg, members[best], members[current])
  {
    if ClearlyFasterExists(cfg, members, members[current]) {
      var t :| t in members && Eligible(members[t]) && ClearlyFaster(cfg, members[t], members[current]);
      assert t != best ==> Better(members[best], members[t]);
    }
  }

  /** Against the best candidate, the reasons to leave are about that candidate alone. */
  lemma LeavesForTheBest(cfg: Config, members: map<string, Member>, current: string, best: string)
    requires ValidConfig(cfg) && Sane(members) && IsBest(members, best)
    requires current in members && Eligible(members[current])
    ensures HealthierExists(members, members[current]) <==>
      members[current].status == Degraded && members[best].status == Healthy
    ensures PassesMoreExists(members, members[current]) ==>
              members[best].status != members[current].status
                  || members[best].passedTests > members[current].passedTests
    ensures best != current ==> Better(members[best], members[current])
  {
    assert best != current ==> Better(members[best], members[current]);
    if PassesMoreExists(members, members[current]) {
      var t :| t in members && Eligible(members[t])
        && members[t].status == members[current].status && members[t].passedTests > members[current].passedTests;
      assert t != best ==> Better(members[best], members[t]);
    }
  }

  ghost predicate ReasonToLeave(cfg: Config, members: map<string, Member>, c: Member) {
    HealthierExists(members, c) || PassesMoreExists(members, c) || ClearlyFasterExists(cfg, members, c)
  }

  lemma KeptExactly(cfg: Config, members: map<string, Member>, current: string, best: string)
    requires ValidConfig(cfg) && Sane(members) && IsBest(members, best)
    requires current in members && Eligible(members[current])
    ensures
      var s := Keep(cfg, members, current, members[best]);
      (s == current || s == best) && (s != current <==> ReasonToLeave(cfg, members, members[current]))
  {
    LeavesForTheBest(cfg, members, current, best);
    if members[best].status == members[current].status && members[best].passedTests == members[current].passedTests {
      FasterThanTheBest(cfg, members, current, best);
    }
  }

  /**
   A current member that can serve is left only for a better class, for more
   passed tests in the same class, or for a gain above the tolerance.
   */
  lemma SelectionIsSticky(cfg: Config, members: map<string, Member>, histories: map<string, seq<Probe>>,
      current: string)
    requires ValidConfig(cfg) && Reachable(cfg, members, histories)
    requires current in members && CanServe(cfg, histories[current])
    ensures
      var s := Select(cfg, members, current);
      s in members && (s != current <==> ReasonToLeave(cfg, members, members[current]))
  {
    ReachableIsSane(cfg, members, histories);
    EligibleMeansCanServe(cfg, members, histories, current);
    BestExists(members);
    var best :| IsBest(members, best);
    SelectFromBest(cfg, members, current, best);
    KeptExactly(cfg, members, current, best);
  }

  /** Sorting the eligible members, in whatever order they were met, puts the best candidate first. */
  lemma CandidatesDecide(members: map<string, Member>, order: seq<string>, candidates: seq<Member>)
    requires WellTagged(members) && forall t :: t in order <==> t in members
    requires forall x :: x in candidates <==> exists k :: 0 <= k < |order| && x == members[order[k]] && Eligible(x)
    ensures candidates == [] ==> !exists t :: IsBest(members, t)
    ensures candidates != [] ==>
              var best := Sort(candidates)[0];
              IsBest(members, best.tag) && members[best.tag] == best
  {
    forall t | t in members && Eligible(members[t]) ensures members[t] in candidates {
      assert t in order;
    }
    if candidates != [] {
      SortPutsBestFirst(candidates);
      var best := Sort(candidates)[0];
      assert best in Sort(candidates) && best in candidates;
      assert members[best.tag] == best;
    }
  }

  // ----- the monitor

  datatype MonitorView = MonitorView(members: map<string, Member>, selected: string, idle: bool)

  /** A result of a round, addressed by the tag of the member that was probed. */
  datatype TaggedProbe = TaggedProbe(tag: string, probe: Probe)

  function ApplyAll(cfg: Config, members: map<string, Member>, results: seq<TaggedProbe>): map<string, Member>
    decreases |results|
  {
    if results == [] then members
    else
      var before := ApplyAll(cfg, members, results[..|results| - 1]);
      var r := results[|results| - 1];
      if r.tag in before then before[r.tag := Apply(cfg, before[r.tag], r.probe)] else before
  }

  function Record(histories: map<string, seq<Probe>>, results: seq<TaggedProbe>): map<string, seq<Probe>>
    decreases |results|
  {
    if results == [] then histories
    else
      var before := Record(histories, results[..|results| - 1]);
      var r := results[|results| - 1];
      if r.tag in before then before[r.tag := before[r.tag] + [r.probe]] else before
  }

  lemma ApplyIgnoresSchedule(cfg: Config, m: Member, n: Member, p: Probe)
    requires m == n.(nextProbeAt := m.nextProbeAt)
    ensures Apply(cfg, m, p) == Apply(cfg, n, p)
  {
  }

  lemma {:induction false} RoundStaysReachable(
    cfg: Config, members: map<string, Member>, histories: map<string, seq<Probe>>, results: seq<TaggedProbe>)
    requires Reachable(cfg, members, histories)
    requires forall i :: 0 <= i < |results| ==> ValidProbe(results[i].probe)
    ensures Reachable(cfg, ApplyAll(cfg, members, results), Record(histories, results))
    decreases |results|
  {
    if results != [] {
      var rest := results[..|results| - 1];
      RoundStaysReachable(cfg, members, histories, rest);
      var r := results[|results| - 1];
      var ms, hs := ApplyAll(cfg, members, rest), Record(histories, rest);
      if r.tag in ms {
        var h := hs[r.tag];
        assert (h + [r.probe])[..|h + [r.probe]| - 1] == h;
        ApplyIgnoresSchedule(cfg, ms[r.tag], MemberAfter(cfg, r.tag, h), r.probe);
      }
    }
  }

  /** What happens to a monitor: a finished round, a change of idleness, or nothing it records. */
  datatype Event =
    | Round(results: seq<TaggedProbe>, written: bool)
    | EnterIdle(written: bool)
    | LeaveIdle(now: int)

  ghost function Step(cfg: Config, v: MonitorView, e: Event): MonitorView {
    match e
    case Round(results, written) =>
      var members := ApplyAll(cfg, v.members, results);
      if written then v.(members := members, selected := RoundSelection(cfg, members, v.selected, v.idle))
      else v.(members := members)
    case EnterIdle(written) =>
      if v.idle then v else v.(idle := true, selected := if written then AUTO else v.selected)
    case LeaveIdle(now) =>
      if !v.idle then v
      else v.(idle := false, members := map t | t in v.members :: v.members[t].(nextProbeAt := now))
  }

  function InitialView(tags: set<string>, now: int): MonitorView {
    MonitorView(map t | t in tags :: NewMember(t, now), "", false)
  }

  ghost function RunView(cfg: Config, tags: set<string>, now: int, events: seq<Event>): MonitorView
    decreases |events|
  {
    if events == [] then InitialView(tags, now)
    else Step(cfg, RunView(cfg, tags, now, events[..|events| - 1]), events[|events| - 1])
  }

  function RunHistories(tags: set<string>, events: seq<Event>): map<string, seq<Probe>>
    decreases |events|
  {
    if events == [] then map t | t in tags :: []
    else
      var before := RunHistories(tags, events[..|events| - 1]);
      match events[|events| - 1]
      case Round(results, _) => Record(before, results)
      case _ => before
  }

  ghost predicate ValidRun(events: seq<Event>) {
    forall i :: 0 <= i < |events| && events[i].Round? ==>
      forall k :: 0 <= k < |events[i].results| ==> ValidProbe(events[i].results[k].probe)
  }

  /** Every run, idle or not, leaves members that are exactly what their own histories make them. */
  lemma {:induction false} RunIsReachable(cfg: Config, tags: set<string>, now: int, events: seq<Event>)
    requires ValidRun(events)
    ensures Reachable(cfg, RunView(cfg, tags, now, events).members, RunHistories(tags, events))
    ensures RunView(cfg, tags, now, events).members.Keys == tags
    decreases |events|
  {
    if events != [] {
      var before := events[..|events| - 1];
      RunIsReachable(cfg, tags, now, before);
      var e := events[|events| - 1];
      if e.Round? {
        var v, hs := RunView(cfg, tags, now, before), RunHistories(tags, before);
        RoundStaysReachable(cfg, v.members, hs, e.results);
        ApplyAllKeepsKeys(cfg, v.members, e.results);
      }
    }
  }

  lemma {:induction false} ApplyAllKeepsKeys(cfg: Config, members: map<string, Member>, results: seq<TaggedProbe>)
    ensures ApplyAll(cfg, members, results).Keys == members.Keys
    decreases |results|
  {
    if results != [] {
      ApplyAllKeepsKeys(cfg, members, results[..|results| - 1]);
    }
  }

  /**
   The outbound that a round writes after any run: block exactly when no member
   can serve, the core's url test when idle, otherwise a member that can serve.
   */
  lemma RoundWritesAServingMember(cfg: Config, tags: set<string>, now: int, events: seq<Event>,
      results: seq<TaggedProbe>)
    requires ValidConfig(cfg) && ValidRun(events + [Round(results, true)]) && BLOCK !in tags
    ensures
      var v := RunView(cfg, tags, now, events + [Round(results, true)]);
      var hs := RunHistories(tags, events + [Round(results, true)]);
      && hs.Keys == tags
      && (v.selected == BLOCK <==> forall t :: t in tags ==> !CanServe(cfg, hs[t]))
      && (v.selected != BLOCK && v.idle ==> v.selected == AUTO)
      && (v.selected != BLOCK && !v.idle ==> v.selected in tags && CanServe(cfg, hs[v.selected]))
  {
    var all := events + [Round(results, true)];
    assert all[..|all| - 1] == events;
    RunIsReachable(cfg, tags, now, all);
    var before := RunView(cfg, tags, now, events);
    var v, hs := RunView(cfg, tags, now, all), RunHistories(tags, all);
    SelectionIsSound(cfg, v.members, hs, before.selected);
  }

  /** One pool member; its fields are updated by each round. */
  class MemberState {
    const tag: string
    var status: Status
    var latencyMS: int
    var passedTests: nat
    var totalTests: nat
    var failures: nat
    var recoverySuccesses: nat
    var lastCheckedAt: int
    var nextProbeAt: int

    ghost function View(): Member
      reads this
    {
      Member(tag, status, latencyMS, passedTests, totalTests, failures, recoverySuccesses, lastCheckedAt, nextProbeAt)
    }

    function Read(): (m: Member)
      reads this
      ensures m == View()
    {
      Member(tag, status, latencyMS, passedTests, totalTests, failures, recoverySuccesses, lastCheckedAt, nextProbeAt)
    }

    constructor (tag: string, now: int)
      ensures View() == NewMember(tag, now)
    {
      this.tag := tag;
      status, latencyMS, passedTests, totalTests := Unknown, 0, 0, 0;
      failures, recoverySuccesses, lastCheckedAt, nextProbeAt := 0, 0, 0, now;
    }

    method ApplyResult(cfg: Config, result: Probe)
      requires ValidConfig(cfg) && cfg.maxBackoff <= MAX_INT64
      modifies this
      ensures View() == Apply(cfg, old(View()), result)
    {
      lastCheckedAt := result.at;
      passedTests := result.successes;
      totalTests := result.total;
      if result.successes == 0 {
        failures := failures + 1;
        recoverySuccesses := 0;
        if failures >= cfg.consecutiveFailures {
          status := Quarantined;
          var delay := BackoffFor(failures - cfg.consecutiveFailures, cfg.maxBackoff as Duration);
          nextProbeAt := result.at + delay as int;
        } else {
          status := Degraded;
          nextProbeAt := result.at + FAST_RETRY;
        }
        return;
      }
      latencyMS := result.latencyMS;
      var partial := result.successes < result.total || result.latencyMS * MILLISECOND >= cfg.highLatencyThreshold;
      if status == Quarantined {
        recoverySuccesses := recoverySuccesses + 1;
        if recoverySuccesses < cfg.recoverySuccesses {
          nextProbeAt := result.at + FAST_RETRY;
          return;
        }
      }
      failures := 0;
      recoverySuccesses := 0;
      status := if partial then Degraded else Healthy;
      nextProbeAt := result.at + cfg.interval;
    }
  }

  class Manager {
    const cfg: Config
    var members: map<string, MemberState>
    var selected: string
    var idle: bool

    ghost predicate Valid()
      reads this, members.Values
    {
      && ValidConfig(cfg) && cfg.maxBackoff <= MAX_INT64
      && (forall t :: t in members ==> members[t].tag == t)
    }

    ghost function Members(): map<string, Member>
      reads this, members.Values
    {
      map t | t in members :: members[t].View()
    }

    ghost function View(): MonitorView
      reads this, members.Values
    {
      MonitorView(Members(), selected, idle)
    }

    /** StartContext up to the first round: every target unknown, nothing selected. */
    constructor (cfg: Config, targets: seq<string>, now: int)
      requires ValidConfig(cfg) && cfg.maxBackoff <= MAX_INT64
      ensures Valid() && fresh(members.Values)
      ensures View() == InitialView((set t | t in targets), now)
    {
      this.cfg := cfg;
      selected, idle := "", false;
      members := map[];
      new;
      for i := 0 to |targets|
        invariant Valid() && forall t :: t in members ==> fresh(members[t])
        invariant selected == "" && !idle && this.cfg == cfg
        invariant members.Keys == set t | t in targets[..i]
        invariant forall t :: t in members ==> members[t].View() == NewMember(t, now)
      {
        var member := new MemberState(targets[i], now);
        members := members[targets[i] := member];
        assert targets[..i + 1] == targets[..i] + [targets[i]];
      }
      assert targets[..|targets|] == targets;
    }

    /** bestSelectionLocked; `order` is the order in which the runtime walks the map. */
    method BestSelection(order: seq<string>) returns (tag: string)
      requires Valid()
      requires Distinct(order) && forall t :: t in order <==> t in members
      ensures tag == Select(cfg, Members(), selected)
    {
      var candidates: seq<Member> := [];
      for i := 0 to |order|
        invariant forall x :: x in candidates <==>
          exists k :: 0 <= k < i && x == Members()[order[k]] && Eligible(x)
      {
        assert order[i] in order;
        var member := members[order[i]].Read();
        if (member.status == Healthy || member.status == Degraded)
          && (member.totalTests == 0 || member.passedTests > 0) {
          candidates := candidates + [member];
        }
      }
      ghost var ms := Members();
      CandidatesDecide(ms, order, candidates);
      if candidates == [] {
        return BLOCK;
      }
      var best := Sort(candidates)[0];
      SelectFromBest(cfg, ms, selected, best.tag);
      if selected !in members {
        return best.tag;
      }
      var current := members[selected].Read();
      if current.status != Healthy && current.status != Degraded {
        return best.tag;
      }
      if current.status != best.status || current.passedTests != best.passedTests {
        return best.tag;
      }
      if EffectiveLatency(current) <= Add64(EffectiveLatency(best), cfg.tolerance / MILLISECOND) {
        return current.tag;
      }
      return best.tag;
    }

    /** The results of one round, member by member. */
    method ApplyResults(results: seq<TaggedProbe>)
      requires Valid()
      modifies members.Values
      ensures Valid() && Members() == ApplyAll(cfg, old(Members()), results)
    {
      ghost var before := Members();
      for i := 0 to |results|
        invariant Valid()
        invariant Members() == ApplyAll(cfg, before, results[..i])
      {
        assert results[..i + 1][..i] == results[..i];
        ghost var was := Members();
        var result := results[i];
        if result.tag in members {
          var member := members[result.tag];
          member.ApplyResult(cfg, result.probe);
          assert Members() == was[result.tag := Apply(cfg, was[result.tag], result.probe)];
        }
      }
      assert results[..|results|] == results;
    }

    /** checkTargets after a round that returned no error; `written` is whether the selector was set. */
    method CheckTargets(results: seq<TaggedProbe>, order: seq<string>, written: bool) returns (selection: string)
      requires Valid()
      requires Distinct(order) && forall t :: t in order <==> t in members
      modifies this, members.Values
      ensures Valid() && members == old(members)
      ensures selection == RoundSelection(cfg, Members(), old(selected), idle)
      ensures View() == Step(cfg, old(View()), Round(results, written))
    {
      ApplyResults(results);
      selection := BestSelection(order);
      if idle && selection != BLOCK {
        selection := AUTO;
      }
      ghost var after := Members();
      if written {
        selected := selection;
      }
      assert Members() == after;
    }

    /** The part of refreshActivity that depends on whether traffic has been absent for long enough. */
    method SetIdle(nowIdle: bool, written: bool, now: int)
      requires Valid()
      modifies this, members.Values
      ensures Valid() && members == old(members)
      ensures View() == Step(cfg, old(View()), if nowIdle then EnterIdle(written) else LeaveIdle(now))
    {
      var wasIdle := idle;
      idle := nowIdle;
      if wasIdle && !nowIdle {
        ghost var before := Members();
        forall t | t in members {
          members[t].nextProbeAt := now;
        }
        assert Members() == map t | t in before :: before[t].(nextProbeAt := now);
      } else if !wasIdle && nowIdle && written {
        selected := AUTO;
      }
    }
  }
}
