/**
 The rates that the connection cache shows: each is the difference of the counters of two polls
 over the time between them, whatever was evicted, closed or opened again in between.
 */
module LinkRates {
  import opened Common
  import opened LinkCache
  import opened LinkCacheRuns

  /** This many bytes in a second are `bytes` in `elapsed` nanoseconds. */
  ghost predicate IsRate(rate: real, bytes: int, elapsed: int) {
    rate * elapsed as real == bytes as real * SECOND as real
  }

  /** The rate after a counter went from `before` to `now`; if it went back, the rate stays. */
  ghost predicate Continues(rate: real, before: int, now: int, elapsed: int, former: real) {
    if now >= before then IsRate(rate, now - before, elapsed) else rate == former
  }

  lemma LinkRateContinues(before: int, now: int, elapsed: int, former: real)
    requires elapsed > 0
    ensures Continues(LinkRate(before, now, elapsed, former), before, now, elapsed, former)
  {
  }

  /** The first connection with this id. */
  ghost function FirstOf(connections: seq<Connection>, id: string): Connection
    requires id in Ids(connections)
    decreases |connections|
  {
    var rest, last := connections[..|connections| - 1], connections[|connections| - 1];
    if id in Ids(rest) then FirstOf(rest, id) else last
  }

  lemma LastMatches(connections: seq<Connection>, id: string)
    requires id in Ids(connections) && id !in Ids(connections[..|connections| - 1])
    ensures connections[|connections| - 1].id == id
  {
    SplitLast(connections);
    IdsOfMore(connections[..|connections| - 1], connections[|connections| - 1]);
  }

  // ----- one poll

  /** All that the cache knows is older than `now`, and only links and totals have samples. */
  ghost predicate Older(c: Cache, now: int) {
    && (forall id :: id in c.links ==> c.links[id].firstSeen < now)
    && (forall id :: id in c.samples && id != TOTAL ==> id in c.links && c.samples[id].at < now)
  }

  /** The rates of a link whose connection had these counters first, compared with what was cached. */
  ghost predicate Follows(r: Link, former: Link, samples: map<string, Sample>, first: Connection, now: int) {
    if first.id in samples then
      var s := samples[first.id];
      && Continues(r.uploadRate, s.upload, first.upload, now - s.at, former.uploadRate)
      && Continues(r.downloadRate, s.download, first.download, now - s.at, former.downloadRate)
    else
      r.uploadRate == former.uploadRate && r.downloadRate == former.downloadRate
  }

  /** A link of this poll has no rate; one that is older follows from what was cached. */
  ghost predicate Traced(start: Cache, v: Cache, seen: seq<Connection>, id: string, now: int) {
    if id !in v.links then id !in v.samples
    else
      var r := v.links[id];
      && (id in v.samples && (id in Ids(seen) || id !in start.links) ==> v.samples[id].at == now)
      && r.firstSeen <= now
      && (r.firstSeen == now ==> r.uploadRate == 0.0 && r.downloadRate == 0.0 && id in Ids(seen))
      && (r.firstSeen < now ==>
        && id in start.links
        && if id in Ids(seen) then Follows(r, start.links[id], start.samples, FirstOf(seen, id), now)
           else
             && r == start.links[id] && (id in v.samples <==> id in start.samples)
             && (id in v.samples ==> v.samples[id] == start.samples[id]))
  }

  lemma FirstOfMore(seen: seq<Connection>, conn: Connection, id: string)
    ensures Ids(seen + [conn]) == Ids(seen) + {conn.id}
    ensures id in Ids(seen) ==> FirstOf(seen + [conn], id) == FirstOf(seen, id)
    ensures id !in Ids(seen) && conn.id == id ==> FirstOf(seen + [conn], id) == conn
  {
    IdsOfMore(seen, conn);
    DropLast(seen, conn);
  }

  /** Another connection leaves the link alone, or evicts it and its sample. */
  lemma TraceOfOther(start: Cache, c: Cache, seen: seq<Connection>, conn: Connection, id: string, now: int)
    requires Listed(c) && Traced(start, c, seen, id, now) && conn.id != id
    ensures Traced(start, Observe(c, conn, now), seen + [conn], id, now)
  {
    var v := Observe(c, conn, now);
    ObserveFrame(c, conn, now);
    FirstOfMore(seen, conn, id);
    assert id in v.samples <==> id in c.samples && (id in c.links ==> id in v.links);
  }

  lemma NewLinkHasNoRate(c: Cache, conn: Connection, now: int)
    requires Listed(c) && conn.id !in c.links && conn.id !in c.samples
    ensures
      var r := Observe(c, conn, now).links[conn.id];
      r.firstSeen == now && r.uploadRate == 0.0 && r.downloadRate == 0.0
  {
    var a := Admit(c, conn.id, now);
    assert conn.id !in a.samples;
  }

  lemma OwnLinkIsRated(c: Cache, conn: Connection, now: int)
    requires conn.id in c.links
    ensures
      var r, former := Observe(c, conn, now).links[conn.id], c.links[conn.id];
      && r.firstSeen == former.firstSeen
      && (conn.id in c.samples && c.samples[conn.id].at < now ==> Follows(r, former, c.samples, conn, now))
      && (conn.id !in c.samples || c.samples[conn.id].at == now ==>
        r.uploadRate == former.uploadRate && r.downloadRate == former.downloadRate)
  {
    if conn.id in c.samples && c.samples[conn.id].at < now {
      var s := c.samples[conn.id];
      LinkRateContinues(s.upload, conn.upload, now - s.at, c.links[conn.id].uploadRate);
      LinkRateContinues(s.download, conn.download, now - s.at, c.links[conn.id].downloadRate);
    }
  }

  lemma TraceOfOwn(start: Cache, c: Cache, seen: seq<Connection>, conn: Connection, now: int)
    requires Older(start, now) && conn.id != TOTAL
    requires Listed(c) && Traced(start, c, seen, conn.id, now)
    requires conn.id in Ids(seen) && conn.id in c.links ==> conn.id in c.samples
    ensures Traced(start, Observe(c, conn, now), seen + [conn], conn.id, now)
  {
    FirstOfMore(seen, conn, conn.id);
    ObserveFrame(c, conn, now);
    if conn.id in c.links {
      OwnLinkIsRated(c, conn, now);
    } else {
      NewLinkHasNoRate(c, conn, now);
    }
  }

  lemma {:induction false} LinksAreTraced(start: Cache, connections: seq<Connection>, id: string, now: int)
    requires Bounded(start) && Older(start, now) && id != TOTAL
    ensures Traced(start, ObserveAll(start, connections, now), connections, id, now)
    decreases |connections|
  {
    if connections != [] {
      var rest, last := connections[..|connections| - 1], connections[|connections| - 1];
      SplitLast(connections);
      LinksAreTraced(start, rest, id, now);
      ObserveAllStaysBounded(start, rest, now);
      AllAreObserved(start, rest, now);
      if last.id == id {
        TraceOfOwn(start, ObserveAll(start, rest, now), rest, last, now);
      } else {
        TraceOfOther(start, ObserveAll(start, rest, now), rest, last, id, now);
      }
    }
  }

  /**
   The rates of every link of a payload: none if the link is new or was evicted on the way, and
   otherwise what its former counters and the first of its connections give.
   */
  lemma PollRatesLinks(c: Cache, p: Payload, now: int, id: string)
    requires Bounded(c) && Older(c, now) && id != TOTAL
    requires id in Ids(p.connections) && id in Poll(c, p, now).links
    ensures
      var r := Poll(c, p, now).links[id];
      && r.firstSeen <= now
      && (r.firstSeen == now ==> r.uploadRate == 0.0 && r.downloadRate == 0.0)
      && (r.firstSeen < now ==>
        id in c.links && Follows(r, c.links[id], c.samples, FirstOf(p.connections, id), now))
  {
    PolledLink(c, p, now, id);
    LinksAreTraced(WithTotals(c, p, now), p.connections, id, now);
    TracedMeans(c, p, now, id);
  }

  lemma TracedMeans(c: Cache, p: Payload, now: int, id: string)
    requires id in Ids(p.connections) && id in PollLinks(c, p, now).links && id != TOTAL
    requires Traced(WithTotals(c, p, now), PollLinks(c, p, now), p.connections, id, now)
    ensures
      var r := PollLinks(c, p, now).links[id];
      && r.firstSeen <= now
      && (r.firstSeen == now ==> r.uploadRate == 0.0 && r.downloadRate == 0.0)
      && (r.firstSeen < now ==>
        id in c.links && Follows(r, c.links[id], c.samples, FirstOf(p.connections, id), now))
  {
    IdOfFirst(p.connections, id);
  }

  lemma PolledLink(c: Cache, p: Payload, now: int, id: string)
    ensures
      var v, all := Poll(c, p, now), PollLinks(c, p, now);
      && (id in v.links <==> id in all.links)
      && (id in v.links ==>
        v.links[id] == if id in Ids(p.connections) then all.links[id] else Closed(all.links[id], now))
      && (id in v.samples <==> id in all.samples && (id in all.links ==> id in Ids(p.connections)))
      && (id in v.samples ==> v.samples[id] == all.samples[id])
  {
    MarkedLinks(PollLinks(c, p, now), PollLinks(c, p, now).links.Keys - Ids(p.connections), now);
  }

  // ----- runs

  ghost predicate ClosedAreIdle(c: Cache) {
    forall id :: id in c.links && !c.links[id].active ==>
      c.links[id].uploadRate == 0.0 && c.links[id].downloadRate == 0.0
  }

  lemma PollClosesIdle(c: Cache, p: Payload, now: int)
    requires Bounded(c) && ClosedAreIdle(c)
    ensures ClosedAreIdle(Poll(c, p, now))
  {
    var start, v := WithTotals(c, p, now), Poll(c, p, now);
    AllAreObserved(start, p.connections, now);
    forall id | id in v.links && !v.links[id].active
      ensures v.links[id].uploadRate == 0.0 && v.links[id].downloadRate == 0.0
    {
      PolledLink(c, p, now, id);
      ClosedStaysIdle(start, PollLinks(c, p, now), p, now, id);
    }
  }

  lemma ClosedStaysIdle(start: Cache, all: Cache, p: Payload, now: int, id: string)
    requires ClosedAreIdle(start) && Observed(start, all, Ids(p.connections))
    requires id in all.links && (id in Ids(p.connections) ==> !all.links[id].active)
    ensures Closed(all.links[id], now).uploadRate == 0.0 && Closed(all.links[id], now).downloadRate == 0.0
  {
  }

  /** On every run a closed link shows no rate, also one that is closed for long. */
  lemma {:induction false} ClosedLinksAreIdle(events: seq<Event>)
    ensures Bounded(Run(events)) && ClosedAreIdle(Run(events))
    decreases |events|
  {
    if events != [] && events[|events| - 1].PollAt? {
      var rest, last := events[..|events| - 1], events[|events| - 1];
      ClosedLinksAreIdle(rest);
      PollStaysBounded(Run(rest), last.payload, last.now);
      PollClosesIdle(Run(rest), last.payload, last.now);
    }
  }

  /** Nothing is newer than this. */
  ghost predicate NotAfter(c: Cache, now: int) {
    && (forall id :: id in c.links ==> c.links[id].firstSeen <= now)
    && (forall id :: id in c.samples ==> c.samples[id].at <= now)
  }

  lemma ObserveNotAfter(c: Cache, conn: Connection, now: int)
    requires NotAfter(c, now)
    ensures NotAfter(Observe(c, conn, now), now)
  {
    var a := Admit(c, conn.id, now);
    assert NotAfter(a, now);
  }

  lemma {:induction false} AllNotAfter(c: Cache, connections: seq<Connection>, now: int)
    requires NotAfter(c, now)
    ensures NotAfter(ObserveAll(c, connections, now), now)
    decreases |connections|
  {
    if connections != [] {
      AllNotAfter(c, connections[..|connections| - 1], now);
      ObserveNotAfter(ObserveAll(c, connections[..|connections| - 1], now), connections[|connections| - 1], now);
    }
  }

  lemma PollNotAfter(c: Cache, p: Payload, before: int, now: int)
    requires NotAfter(c, before) && before <= now
    ensures NotAfter(Poll(c, p, now), now)
  {
    AllNotAfter(WithTotals(c, p, now), p.connections, now);
    MarkedLinks(PollLinks(c, p, now), PollLinks(c, p, now).links.Keys - Ids(p.connections), now);
  }

  lemma {:induction false} RunNotAfter(events: seq<Event>, start: int)
    requires ClockRuns(events, start)
    ensures NotAfter(Run(events), Clock(events, start))
    decreases |events|
  {
    if events != [] {
      var rest, last := events[..|events| - 1], events[|events| - 1];
      forall k | 0 <= k < |rest| ensures rest[..k] == events[..k] {}
      RunNotAfter(rest, start);
      if last.PollAt? {
        PollNotAfter(Run(rest), last.payload, Clock(rest, start), last.now);
      }
    }
  }

  lemma RunIsOlder(events: seq<Event>, start: int, now: int)
    requires ClockRuns(events, start) && Clock(events, start) < now
    ensures Bounded(Run(events)) && Older(Run(events), now)
  {
    CacheStaysCoherent(events, start);
    RunNotAfter(events, start);
  }

  /** The connection with this id and these counters is in the payload, alone under its id. */
  ghost predicate Lists(p: Payload, conn: Connection) {
    NamedOnce(p.connections) && conn in p.connections
  }

  lemma {:induction false} TheOnlyOne(connections: seq<Connection>, conn: Connection)
    requires NamedOnce(connections) && conn in connections
    ensures conn.id in Ids(connections) && FirstOf(connections, conn.id) == conn
    decreases |connections|
  {
    var rest, last := connections[..|connections| - 1], connections[|connections| - 1];
    SplitLast(connections);
    if conn in rest {
      TheOnlyOne(rest, conn);
    } else {
      assert last == conn && connections[|rest|] == conn;
      forall k | 0 <= k < |rest| ensures rest[k].id != conn.id {
        assert connections[k] == rest[k];
      }
    }
  }

  /**
   On every run with two polls in succession: a connection of both that stayed cached shows the
   rates between the two, or its former ones where a counter went back.
   */
  lemma RatesAreOfTheLastTwoPolls(events: seq<Event>, start: int, p: Payload, at: int, q: Payload, now: int,
      before: Connection, after: Connection)
    requires ClockRuns(events + [PollAt(p, at)], start) && at < now
    requires Lists(p, before) && Lists(q, after) && before.id == after.id && before.id != TOTAL
    requires before.id in Run(events + [PollAt(p, at)]).links
    requires before.id in Run(events + [PollAt(p, at), PollAt(q, now)]).links
    ensures
      var former := Run(events + [PollAt(p, at)]).links[before.id];
      var r := Run(events + [PollAt(p, at), PollAt(q, now)]).links[before.id];
      && (r.firstSeen < now ==>
        && Continues(r.uploadRate, before.upload, after.upload, now - at, former.uploadRate)
        && Continues(r.downloadRate, before.download, after.download, now - at, former.downloadRate))
      && (r.firstSeen == now ==> r.uploadRate == 0.0 && r.downloadRate == 0.0)
  {
    TwoPolls(events, p, at, q, now);
    RunIsOlder(events + [PollAt(p, at)], start, now);
    ClosedLinksAreIdle(events);
    RatesOfTwoPolls(Run(events), p, at, q, now, before, after);
  }

  lemma RatesOfTwoPolls(c: Cache, p: Payload, at: int, q: Payload, now: int, before: Connection, after: Connection)
    requires Bounded(c) && Bounded(Poll(c, p, at)) && Older(Poll(c, p, at), now)
    requires Lists(p, before) && Lists(q, after) && before.id == after.id && before.id != TOTAL
    requires before.id in Poll(c, p, at).links && before.id in Poll(Poll(c, p, at), q, now).links
    ensures
      var former, r := Poll(c, p, at).links[before.id], Poll(Poll(c, p, at), q, now).links[before.id];
      && (r.firstSeen < now ==>
        && Continues(r.uploadRate, before.upload, after.upload, now - at, former.uploadRate)
        && Continues(r.downloadRate, before.download, after.download, now - at, former.downloadRate))
      && (r.firstSeen == now ==> r.uploadRate == 0.0 && r.downloadRate == 0.0)
  {
    var i :| 0 <= i < |p.connections| && p.connections[i] == before;
    PollShowsThePayload(c, p, at, i);
    TheOnlyOne(q.connections, after);
    PollRatesLinks(Poll(c, p, at), q, now, after.id);
  }

  lemma TwoPolls(events: seq<Event>, p: Payload, at: int, q: Payload, now: int)
    ensures Run(events + [PollAt(p, at)]) == Poll(Run(events), p, at)
    ensures Run(events + [PollAt(p, at), PollAt(q, now)]) == Poll(Run(events + [PollAt(p, at)]), q, now)
    ensures Clock(events + [PollAt(p, at)], at) == at
  {
    DropLast(events, PollAt(p, at));
    DropLast(events + [PollAt(p, at)], PollAt(q, now));
    assert events + [PollAt(p, at), PollAt(q, now)] == events + [PollAt(p, at)] + [PollAt(q, now)];
  }

  /** A connection that the poll before did not list starts without a rate. */
  lemma NewConnectionsHaveNoRate(events: seq<Event>, start: int, p: Payload, at: int, q: Payload, now: int, id: string)
    requires ClockRuns(events + [PollAt(p, at)], start) && at < now && id != TOTAL
    requires id !in Ids(p.connections) && id in Ids(q.connections)
    requires id in Run(events + [PollAt(p, at), PollAt(q, now)]).links
    ensures
      var r := Run(events + [PollAt(p, at), PollAt(q, now)]).links[id];
      r.uploadRate == 0.0 && r.downloadRate == 0.0
  {
    var first := events + [PollAt(p, at)];
    TwoPolls(events, p, at, q, now);
    RunIsOlder(first, start, now);
    ClosedLinksAreIdle(first);
    if id in Run(first).links {
      UnlistedIsIdle(Run(events), p, at, id);
    }
    IdOfFirst(q.connections, id);
    PollRatesLinks(Run(first), q, now, id);
  }

  lemma {:induction false} IdOfFirst(connections: seq<Connection>, id: string)
    requires id in Ids(connections)
    ensures FirstOf(connections, id).id == id
    decreases |connections|
  {
    if id in Ids(connections[..|connections| - 1]) {
      IdOfFirst(connections[..|connections| - 1], id);
    } else {
      LastMatches(connections, id);
    }
  }

  lemma UnlistedIsIdle(c: Cache, p: Payload, now: int, id: string)
    requires ClosedAreIdle(Poll(c, p, now)) && id !in Ids(p.connections) && id in Poll(c, p, now).links
    ensures
      var r := Poll(c, p, now).links[id];
      r.uploadRate == 0.0 && r.downloadRate == 0.0 && id !in Poll(c, p, now).samples
  {
    PolledLink(c, p, now, id);
  }

  // ----- closing

  /** The open links that the payload does not have, of those still cached. */
  ghost function Vanished(c: Cache, v: Cache, ids: set<string>): set<string> {
    set id | id in v.links && id in c.links && id !in ids && c.links[id].active
  }

  /**
   A link that the payload does not have stays as it was if it was closed, and otherwise is closed
   now, keeping its counters; the number of closed links grows by as many as are closed so.
   */
  lemma VanishedAreClosed(c: Cache, p: Payload, now: int, id: string)
    requires Bounded(c)
    ensures
      var v := Poll(c, p, now);
      && (id in v.links && id !in Ids(p.connections) ==>
        && id in c.links
        && v.links[id] == if c.links[id].active
             then c.links[id].(active := false, uploadRate := 0.0, downloadRate := 0.0, lastSeen := now)
             else c.links[id])
      && v.closed == c.closed + |Vanished(c, v, Ids(p.connections))|
  {
    AllAreObserved(WithTotals(c, p, now), p.connections, now);
    PolledLink(c, p, now, id);
    VanishedAreCounted(c, p, now);
  }

  lemma VanishedAreCounted(c: Cache, p: Payload, now: int)
    requires Observed(WithTotals(c, p, now), PollLinks(c, p, now), Ids(p.connections))
    ensures Poll(c, p, now).closed == c.closed + |Vanished(c, Poll(c, p, now), Ids(p.connections))|
  {
    var all := PollLinks(c, p, now);
    PollKeepsListing(c, p, now);
    assert ActiveIds(all.links) * (all.links.Keys - Ids(p.connections)) == Vanished(c, all, Ids(p.connections));
    assert Vanished(c, all, Ids(p.connections)) == Vanished(c, Poll(c, p, now), Ids(p.connections));
    ClosedSoFar(WithTotals(c, p, now), p.connections, now);
  }

  lemma {:induction false} ClosedSoFar(c: Cache, connections: seq<Connection>, now: int)
    ensures ObserveAll(c, connections, now).closed == c.closed
    decreases |connections|
  {
    if connections != [] {
      ClosedSoFar(c, connections[..|connections| - 1], now);
    }
  }

  // ----- the totals

  /** `rate` is the number of whole bytes in a second, of `bytes` in `elapsed` nanoseconds. */
  ghost predicate IsWholeRate(rate: int, bytes: int, elapsed: int) {
    rate * elapsed <= bytes * SECOND < (rate + 1) * elapsed
  }

  ghost predicate TotalFollows(rate: int, before: int, now: int, elapsed: int) {
    if now >= before then IsWholeRate(rate, now - before, elapsed) else rate == 0
  }

  lemma TotalRateFollows(before: int, now: int, elapsed: int)
    requires elapsed > 0
    ensures TotalFollows(TotalRate(before, now, elapsed), before, now, elapsed)
  {
    if now >= before {
      QuotientFacts((now - before) * SECOND, elapsed);
    }
  }

  lemma QuotientFacts(a: int, b: int)
    requires b > 0
    ensures (a / b) * b <= a < (a / b + 1) * b
  {
    assert a == (a / b) * b + a % b;
  }

  /** The statistics give the totals of the last payload, and their rates between the last two polls. */
  lemma TotalsAreOfTheLastTwoPolls(events: seq<Event>, p: Payload, at: int, q: Payload, now: int)
    requires NamesAreFree(events + [PollAt(p, at)]) && at < now
    ensures
      var stats := Run(events + [PollAt(p, at), PollAt(q, now)]).stats;
      && stats.uploadTotal == q.uploadTotal && stats.downloadTotal == q.downloadTotal
      && TotalFollows(stats.uploadRate, p.uploadTotal, q.uploadTotal, now - at)
      && TotalFollows(stats.downloadRate, p.downloadTotal, q.downloadTotal, now - at)
  {
    var first := events + [PollAt(p, at)];
    TwoPolls(events, p, at, q, now);
    TotalsAreSampled(events, p, at);
    StatsFollow(Run(first), p, at, q, now);
  }

  lemma StatsFollow(c: Cache, p: Payload, at: int, q: Payload, now: int)
    requires TOTAL in c.samples && c.samples[TOTAL] == Sample(p.uploadTotal, p.downloadTotal, at) && at < now
    ensures
      var stats := Poll(c, q, now).stats;
      && stats.uploadTotal == q.uploadTotal && stats.downloadTotal == q.downloadTotal
      && TotalFollows(stats.uploadRate, p.uploadTotal, q.uploadTotal, now - at)
      && TotalFollows(stats.downloadRate, p.downloadTotal, q.downloadTotal, now - at)
  {
    TotalRateFollows(p.uploadTotal, q.uploadTotal, now - at);
    TotalRateFollows(p.downloadTotal, q.downloadTotal, now - at);
  }

  lemma {:induction false} OthersKeepTheTotals(c: Cache, connections: seq<Connection>, now: int)
    requires Bounded(c) && TOTAL !in c.links && TOTAL in c.samples && TOTAL !in Ids(connections)
    ensures
      var v := ObserveAll(c, connections, now);
      TOTAL !in v.links && TOTAL in v.samples && v.samples[TOTAL] == c.samples[TOTAL]
    decreases |connections|
  {
    if connections != [] {
      var rest, last := connections[..|connections| - 1], connections[|connections| - 1];
      SplitLast(connections);
      IdsOfMore(rest, last);
      OthersKeepTheTotals(c, rest, now);
      ObserveAllStaysBounded(c, rest, now);
      ObserveFrame(ObserveAll(c, rest, now), last, now);
    }
  }

  lemma TotalsAreSampled(events: seq<Event>, p: Payload, at: int)
    requires NamesAreFree(events + [PollAt(p, at)])
    ensures
      var c := Run(events + [PollAt(p, at)]);
      TOTAL in c.samples && c.samples[TOTAL] == Sample(p.uploadTotal, p.downloadTotal, at)
  {
    var all := events + [PollAt(p, at)];
    DropLast(events, PollAt(p, at));
    assert all[|events|] == PollAt(p, at);
    forall k | 0 <= k < |events| ensures events[k] == all[k] {}
    TotalIsNoLink(events);
    OthersKeepTheTotals(WithTotals(Run(events), p, at), p.connections, at);
  }

  /** The first poll after a start or a reset shows no rates. */
  lemma FirstPollHasNoRates(events: seq<Event>, q: Payload, now: int)
    requires events == [] || events[|events| - 1].Reset?
    ensures
      var c := Run(events + [PollAt(q, now)]);
      && c.stats.uploadTotal == q.uploadTotal && c.stats.downloadTotal == q.downloadTotal
      && c.stats.uploadRate == 0 && c.stats.downloadRate == 0
  {
    DropLast(events, PollAt(q, now));
  }
}
