/** What holds of the connection cache after every sequence of polls and resets. */
module LinkCacheRuns {
  import opened Common
  import opened LinkCache

  // ----- order and links

  /** `order` lists exactly the cached links, each once. */
  ghost predicate Listed(c: Cache) {
    Distinct(c.order) && forall id :: id in c.links <==> id in c.order
  }

  lemma Removed(s: seq<string>, i: nat)
    requires Distinct(s) && i < |s|
    ensures Distinct(s[..i] + s[i + 1..])
    ensures forall id :: id in s[..i] + s[i + 1..] <==> id in s && id != s[i]
  {
    var r := s[..i] + s[i + 1..];
    forall id | id in s && id != s[i] ensures id in r {
      var k :| 0 <= k < |s| && s[k] == id;
      assert r[if k < i then k else k - 1] == id;
    }
    forall k | 0 <= k < |r| ensures r[k] == s[if k < i then k else k + 1] {}
  }

  lemma WithoutStaysListed(c: Cache, i: nat)
    requires Listed(c) && i < |c.order|
    ensures Listed(Without(c, i))
  {
    Removed(c.order, i);
  }

  lemma {:induction false} OpenUpTo(links: map<string, Link>, order: seq<string>, i: nat, k: nat)
    requires i <= |order| && i <= k < FirstClosed(links, order, i)
    ensures order[k] in links && links[order[k]].active
    decreases |order| - i
  {
    if i < k {
      OpenUpTo(links, order, i + 1, k);
    }
  }

  lemma {:induction false} StopsAtClosed(links: map<string, Link>, order: seq<string>, i: nat)
    requires i <= |order|
    ensures
      var k := FirstClosed(links, order, i);
      k < |order| && order[k] in links ==> !links[order[k]].active
    decreases |order| - i
  {
    if i < |order| && order[i] in links && links[order[i]].active {
      StopsAtClosed(links, order, i + 1);
    }
  }

  /** An open link is evicted exactly if all are open, and whatever is evicted is the oldest of its kind. */
  lemma ClosedLinksGoFirst(c: Cache)
    requires Listed(c) && c.order != []
    ensures
      var victim := c.order[Victim(c)];
      && (c.links[victim].active <==> forall id :: id in c.links ==> c.links[id].active)
      && (forall k :: 0 <= k < Victim(c) ==> c.links[c.order[k]].active != c.links[victim].active)
      && Evict(c).links.Keys == c.links.Keys - {victim}
  {
    var i := FirstClosed(c.links, c.order, 0);
    StopsAtClosed(c.links, c.order, 0);
    forall k | 0 <= k < i ensures c.order[k] in c.links && c.links[c.order[k]].active {
      OpenUpTo(c.links, c.order, 0, k);
    }
    if i == |c.order| {
      forall id | id in c.links ensures c.links[id].active {
        var k :| 0 <= k < |c.order| && c.order[k] == id;
      }
    } else {
      assert c.order[i] in c.order;
    }
  }

  lemma AdmitStaysListed(c: Cache, id: string, now: int)
    requires Listed(c) && |c.order| <= MAX_LINKS
    ensures Listed(Admit(c, id, now)) && |Admit(c, id, now).order| <= MAX_LINKS
  {
    if id !in c.links {
      var room := if |c.order| >= MAX_LINKS then Evict(c) else c;
      if |c.order| >= MAX_LINKS {
        WithoutStaysListed(c, Victim(c));
      }
      assert id !in room.order;
      AppendStaysListed(room, id, Link(0, 0, 0.0, 0.0, now, now, false));
    }
  }

  lemma AppendStaysListed(c: Cache, id: string, link: Link)
    requires Listed(c) && id !in c.order
    ensures Listed(c.(links := c.links[id := link], order := c.order + [id]))
  {
  }

  ghost predicate Bounded(c: Cache) {
    Listed(c) && |c.order| <= MAX_LINKS
  }

  lemma {:induction false} ObserveAllStaysBounded(c: Cache, connections: seq<Connection>, now: int)
    requires Bounded(c)
    ensures Bounded(ObserveAll(c, connections, now))
    decreases |connections|
  {
    if connections != [] {
      var rest, last := connections[..|connections| - 1], connections[|connections| - 1];
      ObserveAllStaysBounded(c, rest, now);
      var before := ObserveAll(c, rest, now);
      AdmitStaysListed(before, last.id, now);
      assert Observe(before, last, now).order == Admit(before, last.id, now).order;
    }
  }

  lemma PollKeepsListing(c: Cache, p: Payload, now: int)
    ensures Poll(c, p, now).links.Keys == PollLinks(c, p, now).links.Keys
      && Poll(c, p, now).order == PollLinks(c, p, now).order
  {
  }

  lemma PollStaysBounded(c: Cache, p: Payload, now: int)
    requires Bounded(c)
    ensures Bounded(Poll(c, p, now))
  {
    ObserveAllStaysBounded(WithTotals(c, p, now), p.connections, now);
    PollKeepsListing(c, p, now);
  }

  // ----- what a poll leaves

  /** The cached link and its sample carry the counters of this connection, read at `now`. */
  predicate Shows(c: Cache, conn: Connection, now: int) {
    && conn.id in c.links && conn.id in c.samples
    && c.links[conn.id].upload == conn.upload && c.links[conn.id].download == conn.download
    && c.links[conn.id].lastSeen == now && c.links[conn.id].active
    && c.samples[conn.id] == Sample(conn.upload, conn.download, now)
  }

  /** Observing one connection leaves every other link and sample as it was, or evicts both. */
  lemma ObserveFrame(c: Cache, conn: Connection, now: int)
    requires Listed(c)
    ensures
      var v := Observe(c, conn, now);
      && conn.id in v.links && v.links[conn.id].active && conn.id in v.samples
      && (forall id :: id != conn.id && id in v.links ==> id in c.links && v.links[id] == c.links[id])
      && (forall id :: id != conn.id ==> (id in v.samples <==> id in c.samples && (id in c.links ==> id in v.links)))
      && (forall id :: id != conn.id && id in v.samples ==> v.samples[id] == c.samples[id])
      && Shows(v, conn, now)
  {
    assert |c.order| >= MAX_LINKS ==> c.order[Victim(c)] in c.order;
  }

  /**
   What is known after some connections: the open ones have samples, nothing else gained one, no
   closed link became open.
   */
  ghost predicate Observed(start: Cache, v: Cache, ids: set<string>) {
    && (forall id :: id in v.links && id in ids ==> v.links[id].active && id in v.samples)
    && (forall id :: id in v.samples && id in ids ==> id in v.links)
    && (forall id :: id in v.links && id !in ids ==> id in start.links && v.links[id] == start.links[id])
    && (forall id :: id !in ids ==> (id in v.samples <==> id in start.samples && (id in start.links ==> id in v.links)))
  }

  lemma ObserveOneMore(start: Cache, c: Cache, ids: set<string>, conn: Connection, now: int)
    requires Listed(c) && Observed(start, c, ids)
    ensures Observed(start, Observe(c, conn, now), ids + {conn.id})
  {
    ObserveFrame(c, conn, now);
  }

  lemma {:induction false} AllAreObserved(start: Cache, connections: seq<Connection>, now: int)
    requires Bounded(start)
    ensures Observed(start, ObserveAll(start, connections, now), Ids(connections))
    decreases |connections|
  {
    if connections != [] {
      var rest, last := connections[..|connections| - 1], connections[|connections| - 1];
      AllAreObserved(start, rest, now);
      ObserveAllStaysBounded(start, rest, now);
      ObserveOneMore(start, ObserveAll(start, rest, now), Ids(rest), last, now);
      SplitLast(connections);
      IdsOfMore(rest, last);
    }
  }

  /** Samples are kept only of cached links and of the totals. */
  ghost predicate SamplesOk(c: Cache) {
    forall id :: id in c.samples && id != TOTAL ==> id in c.links
  }

  /** The samples after a poll: the totals and the open links. */
  ghost predicate SamplesExact(v: Cache) {
    v.samples.Keys == {TOTAL} + ActiveIds(v.links)
  }

  lemma MarkedLinks(c: Cache, gone: set<string>, now: int)
    ensures
      var v := Mark(c, gone, now);
      && v.links.Keys == c.links.Keys && v.order == c.order
      && (forall id :: id in c.links ==> v.links[id] == if id in gone then Closed(c.links[id], now) else c.links[id])
  {
  }

  /**
   After a poll exactly the links of the payload are open, the statistics count
   them, and the samples kept are those of the totals and the open links, unless
   a connection is called like the totals and was evicted or has vanished.
   */
  lemma PollSettles(c: Cache, p: Payload, now: int)
    requires Bounded(c) && SamplesOk(c)
    ensures
      var v := Poll(c, p, now);
      && ActiveIds(v.links) == v.links.Keys * Ids(p.connections)
      && v.stats.active == |ActiveIds(v.links)| && v.stats.total == |v.links|
      && SamplesOk(v)
      && (SamplesExact(v) <==> if TOTAL in Ids(p.connections) then TOTAL in v.links else TOTAL !in c.links)
  {
    var start, seen := WithTotals(c, p, now), Ids(p.connections);
    var all, v := PollLinks(c, p, now), Poll(c, p, now);
    AllAreObserved(start, p.connections, now);
    ObserveAllStaysBounded(start, p.connections, now);
    MarkedLinks(all, all.links.Keys - seen, now);
    OpenAfterMark(all, seen, now);
    SamplesAfterMark(start, all, v, seen);
  }

  lemma OpenAfterMark(all: Cache, seen: set<string>, now: int)
    requires forall id :: id in all.links && id in seen ==> all.links[id].active
    ensures ActiveIds(Mark(all, all.links.Keys - seen, now).links) == all.links.Keys * seen
  {
  }

  lemma SamplesAfterMark(start: Cache, all: Cache, v: Cache, seen: set<string>)
    requires Observed(start, all, seen) && SamplesOk(start) && TOTAL in start.samples
    requires v.links.Keys == all.links.Keys && v.samples == all.samples - (all.links.Keys - seen)
    requires ActiveIds(v.links) == v.links.Keys * seen
    ensures SamplesOk(v)
    ensures SamplesExact(v) <==> if TOTAL in seen then TOTAL in v.links else TOTAL !in start.links
  {
    forall id | id != TOTAL ensures id in v.samples <==> id in ActiveIds(v.links) {
      assert id in ActiveIds(v.links) <==> id in all.links && id in seen;
      assert id in v.samples <==> id in all.samples && (id in all.links ==> id in seen);
      if id !in seen && id in all.samples {
        assert id in start.links && id in all.links;
      }
    }
    assert TOTAL in v.samples <==> if TOTAL in seen then TOTAL in all.links else TOTAL !in start.links;
    if TOTAL in v.samples {
      assert v.samples.Keys == {TOTAL} + ActiveIds(v.links);
    } else {
      assert TOTAL !in v.samples.Keys;
    }
  }

  ghost predicate NamedOnce(connections: seq<Connection>) {
    forall i, j :: 0 <= i < j < |connections| ==> connections[i].id != connections[j].id
  }

  ghost predicate AllShown(v: Cache, connections: seq<Connection>, now: int) {
    forall i :: 0 <= i < |connections| && connections[i].id in v.links ==> Shows(v, connections[i], now)
  }

  lemma {:induction false} ObservedAreShown(start: Cache, connections: seq<Connection>, now: int)
    requires Bounded(start) && NamedOnce(connections)
    ensures AllShown(ObserveAll(start, connections, now), connections, now)
    decreases |connections|
  {
    if connections != [] {
      var rest, last := connections[..|connections| - 1], connections[|connections| - 1];
      ObservedAreShown(start, rest, now);
      ObserveAllStaysBounded(start, rest, now);
      AllAreObserved(start, rest, now);
      var before := ObserveAll(start, rest, now);
      var v := ObserveAll(start, connections, now);
      ObserveFrame(before, last, now);
      forall i | 0 <= i < |connections| && connections[i].id in v.links ensures Shows(v, connections[i], now) {
        if i < |rest| {
          assert rest[i] == connections[i] && rest[i].id != last.id;
          assert Shows(before, rest[i], now);
        }
      }
    }
  }

  /** After a poll every open link shows what the payload says of its connection. */
  lemma PollShowsThePayload(c: Cache, p: Payload, now: int, i: nat)
    requires Bounded(c) && NamedOnce(p.connections) && i < |p.connections|
    requires p.connections[i].id in Poll(c, p, now).links
    ensures Shows(Poll(c, p, now), p.connections[i], now)
  {
    var all, seen := PollLinks(c, p, now), Ids(p.connections);
    ObservedAreShown(WithTotals(c, p, now), p.connections, now);
    MarkedLinks(all, all.links.Keys - seen, now);
    assert p.connections[i].id in seen;
    assert Shows(all, p.connections[i], now);
  }

  // ----- eviction over a poll

  lemma {:induction false} DistinctSize(s: seq<string>, ids: set<string>)
    requires Distinct(s) && forall id :: id in ids <==> id in s
    ensures |s| == |ids|
    decreases |s|
  {
    if s == [] {
      assert ids == {};
    } else {
      var rest, last := s[..|s| - 1], s[|s| - 1];
      SplitLast(s);
      DistinctSize(rest, ids - {last});
      assert ids == (ids - {last}) + {last};
    }
  }

  lemma AdmitWithRoom(c: Cache, id: string, now: int, room: set<string>)
    requires Bounded(c) && c.links.Keys + {id} <= room && |room| <= MAX_LINKS
    ensures
      var a := Admit(c, id, now);
      a.links.Keys == c.links.Keys + {id} && c.order <= a.order
  {
    if id !in c.links {
      DistinctSize(c.order, c.links.Keys);
      SubsetSize(c.links.Keys, room - {id});
    }
  }

  lemma {:induction false} AllAdmittedWithRoom(c: Cache, connections: seq<Connection>, now: int, room: set<string>)
    requires Bounded(c) && c.links.Keys + Ids(connections) <= room && |room| <= MAX_LINKS
    ensures
      var v := ObserveAll(c, connections, now);
      v.links.Keys == c.links.Keys + Ids(connections) && c.order <= v.order
    decreases |connections|
  {
    if connections != [] {
      var rest, last := connections[..|connections| - 1], connections[|connections| - 1];
      SplitLast(connections);
      IdsOfMore(rest, last);
      AllAdmittedWithRoom(c, rest, now, room);
      ObserveAllStaysBounded(c, rest, now);
      AdmitWithRoom(ObserveAll(c, rest, now), last.id, now, room);
      var v := ObserveAll(c, connections, now);
      assert v.links.Keys == Admit(ObserveAll(c, rest, now), last.id, now).links.Keys;
      assert c.links.Keys + Ids(connections) == c.links.Keys + Ids(rest) + {last.id};
    }
  }

  /** A poll loses nothing, neither an old link nor a new one, exactly if all of them fit. */
  lemma NothingIsLostExactly(c: Cache, p: Payload, now: int)
    requires Bounded(c)
    ensures Poll(c, p, now).links.Keys == c.links.Keys + Ids(p.connections) <==>
      |c.links.Keys + Ids(p.connections)| <= MAX_LINKS
    ensures |c.links.Keys + Ids(p.connections)| <= MAX_LINKS ==> c.order <= Poll(c, p, now).order
  {
    var v, both := Poll(c, p, now), c.links.Keys + Ids(p.connections);
    PollKeepsListing(c, p, now);
    if |both| <= MAX_LINKS {
      AllAdmittedWithRoom(WithTotals(c, p, now), p.connections, now, both);
    }
    PollStaysBounded(c, p, now);
    DistinctSize(v.order, v.links.Keys);
  }

  // ----- age

  /** The order is by age, and nothing is younger than `now`. */
  ghost predicate Aged(c: Cache, now: int)
    requires Listed(c)
  {
    && (forall i, j :: 0 <= i < j < |c.order| ==> c.links[c.order[i]].firstSeen <= c.links[c.order[j]].firstSeen)
    && (forall i :: 0 <= i < |c.order| ==> c.links[c.order[i]].firstSeen <= now)
  }

  lemma WithoutStaysAged(c: Cache, i: nat, now: int)
    requires Listed(c) && i < |c.order| && Aged(c, now)
    ensures Listed(Without(c, i)) && Aged(Without(c, i), now)
  {
    WithoutStaysListed(c, i);
    var v := Without(c, i);
    forall k | 0 <= k < |v.order| ensures v.order[k] == c.order[if k < i then k else k + 1] {}
  }

  lemma AppendStaysAged(c: Cache, id: string, link: Link, now: int)
    requires Listed(c) && Aged(c, now) && id !in c.links && link.firstSeen == now
    ensures
      var v := c.(links := c.links[id := link], order := c.order + [id]);
      Listed(v) && Aged(v, now)
  {
    AppendStaysListed(c, id, link);
  }

  lemma SameAges(c: Cache, v: Cache, now: int)
    requires Listed(c) && Aged(c, now) && v.order == c.order && v.links.Keys == c.links.Keys
    requires forall id :: id in c.links ==> v.links[id].firstSeen == c.links[id].firstSeen
    ensures Listed(v) && Aged(v, now)
  {
    forall i | 0 <= i < |c.order| ensures v.links[v.order[i]].firstSeen == c.links[c.order[i]].firstSeen {
      assert c.order[i] in c.order;
    }
  }

  lemma ObserveKeepsAges(c: Cache, conn: Connection, now: int)
    ensures
      var a, v := Admit(c, conn.id, now), Observe(c, conn, now);
      && v.order == a.order && v.links.Keys == a.links.Keys
      && forall id :: id in a.links ==> v.links[id].firstSeen == a.links[id].firstSeen
  {
  }

  lemma ObserveStaysAged(c: Cache, conn: Connection, now: int)
    requires Bounded(c) && Aged(c, now)
    ensures Listed(Observe(c, conn, now)) && Aged(Observe(c, conn, now), now)
  {
    var a := Admit(c, conn.id, now);
    if conn.id !in c.links {
      var room := if |c.order| >= MAX_LINKS then Evict(c) else c;
      if |c.order| >= MAX_LINKS {
        WithoutStaysAged(c, Victim(c), now);
      }
      AppendStaysAged(room, conn.id, Link(0, 0, 0.0, 0.0, now, now, false), now);
    }
    ObserveKeepsAges(c, conn, now);
    SameAges(a, Observe(c, conn, now), now);
  }

  lemma {:induction false} ObserveAllStaysAged(c: Cache, connections: seq<Connection>, now: int)
    requires Bounded(c) && Aged(c, now)
    ensures Bounded(ObserveAll(c, connections, now)) && Aged(ObserveAll(c, connections, now), now)
    decreases |connections|
  {
    ObserveAllStaysBounded(c, connections, now);
    if connections != [] {
      var rest, last := connections[..|connections| - 1], connections[|connections| - 1];
      ObserveAllStaysAged(c, rest, now);
      ObserveStaysAged(ObserveAll(c, rest, now), last, now);
    }
  }

  lemma PollStaysAged(c: Cache, p: Payload, before: int, now: int)
    requires Bounded(c) && Aged(c, before) && before <= now
    ensures Bounded(Poll(c, p, now)) && Aged(Poll(c, p, now), now)
  {
    PollStaysBounded(c, p, now);
    var start, all := WithTotals(c, p, now), PollLinks(c, p, now);
    SameAges(c, start, now);
    ObserveAllStaysAged(start, p.connections, now);
    MarkedLinks(all, all.links.Keys - Ids(p.connections), now);
    SameAges(all, Poll(c, p, now), now);
  }

  // ----- runs

  datatype Event = PollAt(payload: Payload, now: int) | Reset

  function Run(events: seq<Event>): Cache
    decreases |events|
  {
    if events == [] then EMPTY
    else
      match events[|events| - 1]
      case PollAt(p, now) => Poll(Run(events[..|events| - 1]), p, now)
      case Reset => EMPTY
  }

  /** The time of the latest poll, or `start` before the first one. */
  function Clock(events: seq<Event>, start: int): int
    decreases |events|
  {
    if events == [] then start
    else if events[|events| - 1].PollAt? then events[|events| - 1].now
    else Clock(events[..|events| - 1], start)
  }

  ghost predicate ClockRuns(events: seq<Event>, start: int) {
    forall k :: 0 <= k < |events| && events[k].PollAt? ==> Clock(events[..k], start) <= events[k].now
  }

  /** At most MaxLinks, listed exactly and oldest first, with statistics and samples of nothing else. */
  ghost predicate Coherent(c: Cache, now: int) {
    && Bounded(c) && SamplesOk(c) && Aged(c, now)
    && c.stats.active == |ActiveIds(c.links)| && c.stats.total == |c.order|
  }

  lemma {:induction false} CacheStaysCoherent(events: seq<Event>, start: int)
    requires ClockRuns(events, start)
    ensures Coherent(Run(events), Clock(events, start))
    decreases |events|
  {
    if events == [] || events[|events| - 1].Reset? {
      assert ActiveIds(EMPTY.links) == {};
    } else {
      var rest, last := events[..|events| - 1], events[|events| - 1];
      forall k | 0 <= k < |rest| ensures rest[..k] == events[..k] {}
      CacheStaysCoherent(rest, start);
      PollStaysAged(Run(rest), last.payload, Clock(rest, start), last.now);
      PollSettles(Run(rest), last.payload, last.now);
      DistinctSize(Run(events).order, Run(events).links.Keys);
    }
  }

  /** No connection is ever called like the totals. */
  ghost predicate NamesAreFree(events: seq<Event>) {
    forall k :: 0 <= k < |events| && events[k].PollAt? ==> TOTAL !in Ids(events[k].payload.connections)
  }

  lemma {:induction false} TotalIsNoLink(events: seq<Event>)
    requires NamesAreFree(events)
    ensures TOTAL !in Run(events).links && Bounded(Run(events)) && SamplesOk(Run(events))
    decreases |events|
  {
    if events != [] && events[|events| - 1].PollAt? {
      var rest, last := events[..|events| - 1], events[|events| - 1];
      TotalIsNoLink(rest);
      var c := Run(rest);
      PollStaysBounded(c, last.payload, last.now);
      PollSettles(c, last.payload, last.now);
      AllAreObserved(WithTotals(c, last.payload, last.now), last.payload.connections, last.now);
      assert Poll(c, last.payload, last.now).links.Keys == PollLinks(c, last.payload, last.now).links.Keys;
    }
  }

  /** Then every poll of a run leaves exactly the samples of the totals and of the open links. */
  lemma SamplesStayExact(events: seq<Event>)
    requires NamesAreFree(events) && events != [] && events[|events| - 1].PollAt?
    ensures SamplesExact(Run(events))
  {
    var rest, last := events[..|events| - 1], events[|events| - 1];
    TotalIsNoLink(rest);
    TotalIsNoLink(events);
    PollSettles(Run(rest), last.payload, last.now);
  }
}
