/**
 The cache keeps the sample of the process-wide totals under a name that a
 connection may have too. When that loses the sample, read off the cache and the
 payload before the poll.
 */
module LinkCacheTotals {
  import opened Common
  import opened LinkCache
  import opened LinkCacheRuns

  // ----- a link that keeps its place

  ghost predicate Younger(c: Cache, x: string, id: string) {
    exists i, j :: 0 <= i < j < |c.order| && c.order[i] == x && c.order[j] == id
  }

  /** The open links that are listed after `x`, and would be evicted after it. */
  ghost function OpenYounger(c: Cache, x: string): set<string> {
    set id | id in c.links && c.links[id].active && Younger(c, x, id)
  }

  /** `x` may only have to make room for these. */
  ghost predicate RivalsAmong(c: Cache, x: string, rivals: set<string>) {
    Bounded(c) && x in rivals && OpenYounger(c, x) <= rivals
  }

  predicate Open(c: Cache, x: string) {
    x in c.links && c.links[x].active
  }

  /** An open link is the one to go only if there are more rivals than places. */
  lemma VictimMeansCrowd(c: Cache, x: string, rivals: set<string>, y: string)
    requires RivalsAmong(c, x, rivals) && Open(c, x)
    requires y !in c.links && y in rivals && |c.order| >= MAX_LINKS && c.order[Victim(c)] == x
    ensures |rivals| > MAX_LINKS
  {
    ClosedLinksGoFirst(c);
    forall id | id in c.links ensures id in rivals {
      if id != x {
        var j :| 0 <= j < |c.order| && c.order[j] == id;
        assert Victim(c) == 0;
        assert Younger(c, x, id);
      }
    }
    DistinctSize(c.order, c.links.Keys);
    SubsetSize(c.links.Keys + {y}, rivals);
    assert |c.links.Keys + {y}| == |c.links.Keys| + 1;
  }

  lemma YoungerAfterRemoval(c: Cache, x: string, i: nat, id: string)
    requires Listed(c) && i < |c.order| && Younger(Without(c, i), x, id)
    ensures Younger(c, x, id)
  {
    var v := Without(c, i);
    forall k | 0 <= k < |v.order| ensures v.order[k] == c.order[if k < i then k else k + 1] {}
    var a, b :| 0 <= a < b < |v.order| && v.order[a] == x && v.order[b] == id;
    assert c.order[if a < i then a else a + 1] == x && c.order[if b < i then b else b + 1] == id;
  }

  /** Dropping a link leaves no new rivals. */
  lemma RemovalKeepsRivals(c: Cache, x: string, rivals: set<string>, i: nat)
    requires RivalsAmong(c, x, rivals) && i < |c.order|
    ensures RivalsAmong(Without(c, i), x, rivals)
  {
    WithoutStaysListed(c, i);
    forall id | id in OpenYounger(Without(c, i), x) ensures id in rivals {
      YoungerAfterRemoval(c, x, i, id);
      assert id in OpenYounger(c, x);
    }
  }

  lemma AppendKeepsRivals(c: Cache, x: string, rivals: set<string>, y: string, link: Link)
    requires RivalsAmong(c, x, rivals) && y !in c.links && y in rivals && |c.order| < MAX_LINKS
    ensures RivalsAmong(c.(links := c.links[y := link], order := c.order + [y]), x, rivals)
  {
    AppendStaysListed(c, y, link);
    var v := c.(links := c.links[y := link], order := c.order + [y]);
    forall id | id in OpenYounger(v, x) ensures id in rivals {
      if id != y {
        var a, b :| 0 <= a < b < |v.order| && v.order[a] == x && v.order[b] == id;
        assert c.order[a] == x && c.order[b] == id;
        assert id in OpenYounger(c, x);
      }
    }
  }

  lemma AdmitKeepsRivals(c: Cache, x: string, rivals: set<string>, y: string, now: int)
    requires RivalsAmong(c, x, rivals) && |rivals| <= MAX_LINKS && y in rivals
    ensures RivalsAmong(Admit(c, y, now), x, rivals)
    ensures Open(c, x) ==> Open(Admit(c, y, now), x)
  {
    if y !in c.links {
      var room := if |c.order| >= MAX_LINKS then Evict(c) else c;
      if |c.order| >= MAX_LINKS {
        RemovalKeepsRivals(c, x, rivals, Victim(c));
        if Open(c, x) && c.order[Victim(c)] == x {
          VictimMeansCrowd(c, x, rivals, y);
        }
      }
      AppendKeepsRivals(room, x, rivals, y, Link(0, 0, 0.0, 0.0, now, now, false));
    }
  }

  lemma ObserveKeepsRivals(c: Cache, x: string, rivals: set<string>, conn: Connection, now: int)
    requires RivalsAmong(c, x, rivals) && |rivals| <= MAX_LINKS && conn.id in rivals
    ensures RivalsAmong(Observe(c, conn, now), x, rivals)
    ensures Open(c, x) || conn.id == x ==> Open(Observe(c, conn, now), x)
  {
    var a, v := Admit(c, conn.id, now), Observe(c, conn, now);
    AdmitKeepsRivals(c, x, rivals, conn.id, now);
    forall id | id in OpenYounger(v, x) ensures id in rivals {
      var i, j :| 0 <= i < j < |v.order| && v.order[i] == x && v.order[j] == id;
      assert Younger(a, x, id);
      assert id != conn.id ==> id in OpenYounger(a, x);
    }
  }

  /** A connection of the payload stays cached if it and its rivals fit. */
  lemma {:induction false} StaysAmongRivals(c: Cache, x: string, rivals: set<string>, connections: seq<Connection>,
      now: int)
    requires RivalsAmong(c, x, rivals) && |rivals| <= MAX_LINKS && Ids(connections) <= rivals
    ensures RivalsAmong(ObserveAll(c, connections, now), x, rivals)
    ensures Open(c, x) || x in Ids(connections) ==> Open(ObserveAll(c, connections, now), x)
    decreases |connections|
  {
    if connections == [] {
      assert Ids(connections) == {};
    } else {
      var rest, last := connections[..|connections| - 1], connections[|connections| - 1];
      SplitLast(connections);
      IdsOfMore(rest, last);
      StaysAmongRivals(c, x, rivals, rest, now);
      ObserveKeepsRivals(ObserveAll(c, rest, now), x, rivals, last, now);
    }
  }

  // ----- a link that loses its place

  /** `x` is followed by exactly `later`, all open. */
  ghost predicate FollowedBy(c: Cache, x: string, later: seq<string>) {
    && |c.order| > |later| && c.order[|c.order| - |later| - 1..] == [x] + later
    && forall id :: id == x || id in later ==> Open(c, id)
  }

  lemma RemovalKeepsTail(s: seq<string>, i: nat, n: nat)
    requires i < n <= |s|
    ensures (s[..i] + s[i + 1..])[n - 1..] == s[n..]
  {
  }

  lemma TailIsOpen(c: Cache, x: string, later: seq<string>, k: nat)
    requires FollowedBy(c, x, later) && |c.order| - |later| - 1 <= k < |c.order|
    ensures c.order[k] == ([x] + later)[k - (|c.order| - |later| - 1)] && Open(c, c.order[k])
  {
    var n := |c.order| - |later| - 1;
    assert c.order[k] == c.order[n..][k - n];
  }

  lemma TailHas(c: Cache, x: string, later: seq<string>, id: string)
    requires FollowedBy(c, x, later) && (id == x || id in later)
    ensures exists k :: |c.order| - |later| - 1 <= k < |c.order| && c.order[k] == id
  {
    var n := |c.order| - |later| - 1;
    if id == x {
      assert c.order[n..][0] == c.order[n];
    } else {
      var j :| 0 <= j < |later| && later[j] == id;
      assert c.order[n..][j + 1] == c.order[n + j + 1];
    }
  }

  /** What is evicted stands before `x`, or is `x`. */
  lemma VictimIsNotYounger(c: Cache, x: string, later: seq<string>)
    requires Bounded(c) && FollowedBy(c, x, later)
    ensures Victim(c) <= |c.order| - |later| - 1
    ensures c.order[|c.order| - |later| - 1] == x
  {
    ClosedLinksGoFirst(c);
    forall k | |c.order| - |later| - 1 <= k < |c.order| ensures Open(c, c.order[k]) {
      TailIsOpen(c, x, later, k);
    }
    TailIsOpen(c, x, later, |c.order| - |later| - 1);
  }

  lemma RemovalFollows(c: Cache, x: string, later: seq<string>, i: nat)
    requires Bounded(c) && FollowedBy(c, x, later) && i < |c.order| - |later| - 1
    ensures FollowedBy(Without(c, i), x, later)
  {
    var n := |c.order| - |later| - 1;
    RemovalKeepsTail(c.order, i, n);
    forall id | id == x || id in later ensures Open(Without(c, i), id) {
      TailHas(c, x, later, id);
      var k :| n <= k < |c.order| && c.order[k] == id;
      assert Open(c, id) && c.order[k] != c.order[i];
    }
  }

  lemma AppendFollows(c: Cache, x: string, later: seq<string>, y: string, link: Link)
    requires FollowedBy(c, x, later) && y !in c.links && link.active
    ensures FollowedBy(c.(links := c.links[y := link], order := c.order + [y]), x, later + [y])
  {
    var n := |c.order| - |later| - 1;
    var v := c.(links := c.links[y := link], order := c.order + [y]);
    assert v.order[n..] == c.order[n..] + [y] == [x] + (later + [y]);
    forall id | id == x || id in later + [y] ensures Open(v, id) {
      assert id != y ==> Open(c, id);
    }
  }

  /** A new connection goes behind those that follow `x`, unless `x` makes room for it. */
  lemma ObserveFollows(c: Cache, x: string, later: seq<string>, conn: Connection, now: int)
    requires Bounded(c) && FollowedBy(c, x, later) && conn.id !in c.links && conn.id != x
    requires x in Observe(c, conn, now).links
    ensures FollowedBy(Observe(c, conn, now), x, later + [conn.id])
  {
    var room := if |c.order| >= MAX_LINKS then Evict(c) else c;
    if |c.order| >= MAX_LINKS {
      VictimIsNotYounger(c, x, later);
      RemovalFollows(c, x, later, Victim(c));
    }
    var v := Observe(c, conn, now);
    AppendFollows(room, x, later, conn.id, v.links[conn.id]);
    var w := room.(links := room.links[conn.id := v.links[conn.id]], order := room.order + [conn.id]);
    assert v.order == w.order && v.links == w.links;
    assert forall id :: Open(v, id) <==> Open(w, id);
  }

  function NamesOf(connections: seq<Connection>): seq<string> {
    seq(|connections|, k requires 0 <= k < |connections| => connections[k].id)
  }

  ghost predicate AllNew(c: Cache, connections: seq<Connection>) {
    NamedOnce(connections) && forall k :: 0 <= k < |connections| ==> connections[k].id !in c.links
  }

  lemma NextIsNew(c: Cache, rest: seq<Connection>, last: Connection, now: int)
    requires Bounded(c) && AllNew(c, rest + [last])
    ensures AllNew(c, rest) && last.id !in c.links && last.id !in ObserveAll(c, rest, now).links
  {
    var all := rest + [last];
    AllAreObserved(c, rest, now);
    forall k | 0 <= k < |rest| ensures rest[k] == all[k] && rest[k].id != last.id {
      assert all[k].id != all[|rest|].id;
    }
    assert all[|rest|] == last;
  }

  /** As long as `x` is there, it is followed by exactly these. */
  ghost predicate LinedUp(c: Cache, x: string, names: seq<string>) {
    Bounded(c) && (x in c.links ==> FollowedBy(c, x, names))
  }

  lemma LineUpOneMore(c: Cache, x: string, names: seq<string>, conn: Connection, now: int)
    requires LinedUp(c, x, names) && conn.id !in c.links && conn.id != x
    ensures LinedUp(Observe(c, conn, now), x, names + [conn.id])
  {
    ObserveFrame(c, conn, now);
    assert [conn][..0] == [];
    ObserveAllStaysBounded(c, [conn], now);
    assert ObserveAll(c, [conn], now) == Observe(c, conn, now);
    if x in Observe(c, conn, now).links {
      ObserveFollows(c, x, names, conn, now);
    }
  }

  /** Each new connection is listed behind the one before, and `x` has all of them behind it as long as it is there. */
  lemma {:induction false} LaterLineUp(c: Cache, x: string, later: seq<Connection>, now: int)
    requires Bounded(c) && FollowedBy(c, x, []) && AllNew(c, later)
    ensures LinedUp(ObserveAll(c, later, now), x, NamesOf(later))
    decreases |later|
  {
    if later == [] {
      assert NamesOf(later) == [];
    } else {
      var rest, last := later[..|later| - 1], later[|later| - 1];
      SplitLast(later);
      NextIsNew(c, rest, last, now);
      LaterLineUp(c, x, rest, now);
      assert Open(c, x);
      LineUpOneMore(ObserveAll(c, rest, now), x, NamesOf(rest), last, now);
      assert NamesOf(later) == NamesOf(rest) + [last.id];
    }
  }

  lemma {:induction false} ObserveConcat(c: Cache, a: seq<Connection>, b: seq<Connection>, now: int)
    ensures ObserveAll(c, a + b, now) == ObserveAll(ObserveAll(c, a, now), b, now)
    decreases |b|
  {
    if b == [] {
      assert a + b == a;
    } else {
      ObserveConcat(c, a, b[..|b| - 1], now);
      assert (a + b)[..|a + b| - 1] == a + b[..|b| - 1];
    }
  }

  lemma NewIsLast(c: Cache, conn: Connection, now: int)
    requires Bounded(c) && conn.id !in c.links
    ensures FollowedBy(Observe(c, conn, now), conn.id, [])
  {
    var v := Observe(c, conn, now);
    assert v.order[|v.order| - 1..] == [conn.id] + [];
  }

  lemma NothingIsYounger(c: Cache, x: string)
    requires Bounded(c) && FollowedBy(c, x, [])
    ensures OpenYounger(c, x) == {}
  {
    TailIsOpen(c, x, [], |c.order| - 1);
    assert forall i :: 0 <= i < |c.order| - 1 ==> c.order[i] != x;
  }

  lemma {:induction false} NamedOnceSize(connections: seq<Connection>)
    requires NamedOnce(connections)
    ensures |Ids(connections)| == |connections|
    decreases |connections|
  {
    if connections == [] {
      assert Ids(connections) == {};
    } else {
      var rest, last := connections[..|connections| - 1], connections[|connections| - 1];
      NamedOnceSize(rest);
      SplitLast(connections);
      IdsOfMore(rest, last);
      assert last.id !in Ids(rest);
    }
  }

  lemma LastStaysExactly(c: Cache, x: string, later: seq<Connection>, now: int)
    requires Bounded(c) && FollowedBy(c, x, []) && AllNew(c, later)
    ensures x in ObserveAll(c, later, now).links <==> |later| < MAX_LINKS
  {
    LaterLineUp(c, x, later, now);
    if |later| < MAX_LINKS {
      NothingIsYounger(c, x);
      NamedOnceSize(later);
      assert Open(c, x) && x !in Ids(later);
      assert |Ids(later) + {x}| == |later| + 1;
      StaysAmongRivals(c, x, Ids(later) + {x}, later, now);
    }
  }

  /** A connection that is new when its turn comes is the last one in the order. */
  lemma TakesTheLastPlace(c: Cache, earlier: seq<Connection>, conn: Connection, now: int)
    requires Bounded(c) && conn.id !in c.links && conn.id !in Ids(earlier)
    ensures
      var v := ObserveAll(c, earlier + [conn], now);
      && Bounded(v) && FollowedBy(v, conn.id, [])
      && v.links.Keys <= c.links.Keys + Ids(earlier) + {conn.id}
  {
    ObserveAllStaysBounded(c, earlier, now);
    ObserveAllStaysBounded(c, earlier + [conn], now);
    AllAreObserved(c, earlier, now);
    DropLast(earlier, conn);
    var before := ObserveAll(c, earlier, now);
    NewIsLast(before, conn, now);
    ObserveFrame(before, conn, now);
  }

  /** Among new connections one is lost exactly if there are a thousand more behind it. */
  lemma NewStaysExactly(c: Cache, connections: seq<Connection>, i: nat, now: int)
    requires Bounded(c) && NamedOnce(connections) && i < |connections|
    requires forall k :: i <= k < |connections| ==> connections[k].id !in c.links
    ensures connections[i].id in ObserveAll(c, connections, now).links <==> |connections| - 1 - i < MAX_LINKS
  {
    var earlier, conn, later := connections[..i], connections[i], connections[i + 1..];
    assert connections == earlier + [conn] + later;
    assert forall k :: i <= k < |connections| ==> connections[k].id !in Ids(earlier);
    TakesTheLastPlace(c, earlier, conn, now);
    ObserveConcat(c, earlier + [conn], later, now);
    LastStaysExactly(ObserveAll(c, earlier + [conn], now), conn.id, later, now);
  }

  // ----- the sample of the totals

  /** In a payload without a namesake of the totals their sample is lost exactly if such a link is still cached. */
  lemma WithoutNamesakeExactly(c: Cache, p: Payload, now: int)
    requires Bounded(c) && SamplesOk(c) && TOTAL !in Ids(p.connections)
    ensures SamplesExact(Poll(c, p, now)) <==> TOTAL !in c.links
  {
    PollSettles(c, p, now);
  }

  /** In a payload with a namesake all samples are kept if it fits together with the open links behind it. */
  lemma NamesakeFits(c: Cache, p: Payload, now: int)
    requires Bounded(c) && SamplesOk(c) && TOTAL in Ids(p.connections)
    requires |OpenYounger(c, TOTAL) + Ids(p.connections)| <= MAX_LINKS
    ensures SamplesExact(Poll(c, p, now))
  {
    var start, rivals := WithTotals(c, p, now), OpenYounger(c, TOTAL) + Ids(p.connections);
    assert OpenYounger(start, TOTAL) == OpenYounger(c, TOTAL) by {
      assert forall id :: Younger(start, TOTAL, id) <==> Younger(c, TOTAL, id);
    }
    StaysAmongRivals(start, TOTAL, rivals, p.connections, now);
    PollKeepsListing(c, p, now);
    PollSettles(c, p, now);
  }

  /** Among new connections the namesake is lost exactly if there are a thousand more behind it. */
  lemma NewNamesakeExactly(c: Cache, p: Payload, now: int, i: nat)
    requires Bounded(c) && SamplesOk(c) && NamedOnce(p.connections)
    requires i < |p.connections| && p.connections[i].id == TOTAL
    requires forall k :: i <= k < |p.connections| ==> p.connections[k].id !in c.links
    ensures SamplesExact(Poll(c, p, now)) <==> |p.connections| - 1 - i < MAX_LINKS
  {
    NewStaysExactly(WithTotals(c, p, now), p.connections, i, now);
    PollKeepsListing(c, p, now);
    PollSettles(c, p, now);
  }

  // ----- a loss

  const NAMESAKE := Connection(TOTAL, 1, 2)

  /** The totals grow by 20 and then by 30 bytes a second; at first there is a connection called like them. */
  const FIRST := Payload(10, 0, [NAMESAKE])
  const NEXT := Payload(30, 0, [])
  const LAST := Payload(60, 0, [])

  lemma AfterFirst()
    ensures
      var c := Poll(EMPTY, FIRST, SECOND);
      Bounded(c) && SamplesOk(c) && TOTAL in c.links && c.samples == map[TOTAL := Sample(1, 2, SECOND)]
  {
    var start := WithTotals(EMPTY, FIRST, SECOND);
    var connections := FIRST.connections;
    assert connections[..|connections| - 1] == [];
    assert ObserveAll(start, connections[..|connections| - 1], SECOND) == start;
    assert Ids(FIRST.connections) == {TOTAL} by {
      assert FIRST.connections[0].id == TOTAL;
    }
    assert PollLinks(EMPTY, FIRST, SECOND) == Observe(start, NAMESAKE, SECOND);
    PollStaysBounded(EMPTY, FIRST, SECOND);
    assert start.samples[TOTAL := Sample(1, 2, SECOND)] == map[TOTAL := Sample(1, 2, SECOND)];
    assert PollLinks(EMPTY, FIRST, SECOND).links.Keys - {TOTAL} == {};
  }

  lemma AfterNext(c: Cache)
    requires Bounded(c) && SamplesOk(c) && TOTAL in c.links && c.samples == map[TOTAL := Sample(1, 2, SECOND)]
    ensures
      var v := Poll(c, NEXT, 2 * SECOND);
      TOTAL !in v.samples && !SamplesExact(v) && v.stats.uploadRate == 29
  {
    assert Ids(NEXT.connections) == {};
    WithoutNamesakeExactly(c, NEXT, 2 * SECOND);
    assert PollLinks(c, NEXT, 2 * SECOND) == WithTotals(c, NEXT, 2 * SECOND);
    assert TOTAL in c.links.Keys - {};
  }

  lemma RunMore(events: seq<Event>, p: Payload, now: int)
    ensures Run(events + [PollAt(p, now)]) == Poll(Run(events), p, now)
  {
    var all := events + [PollAt(p, now)];
    assert all[|all| - 1] == PollAt(p, now) && all[..|all| - 1] == events;
  }

  /** The next poll measures from the connection's counter, loses the sample, and the one after finds no rate at all. */
  lemma NamesakeLosesTheTotals()
    ensures
      var events := [PollAt(FIRST, SECOND)] + [PollAt(NEXT, 2 * SECOND)];
      && TOTAL !in Run(events).samples && !SamplesExact(Run(events)) && Run(events).stats.uploadRate == 29
      && Run(events + [PollAt(LAST, 3 * SECOND)]).stats.uploadRate == 0
  {
    var events := [PollAt(FIRST, SECOND)];
    assert [] + events == events;
    RunMore([], FIRST, SECOND);
    AfterFirst();
    RunMore(events, NEXT, 2 * SECOND);
    AfterNext(Run(events));
    RunMore(events + [PollAt(NEXT, 2 * SECOND)], LAST, 3 * SECOND);
  }
}
