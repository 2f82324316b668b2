/**
 The connection cache (internal/connmon/monitor.go): each poll of the Clash API
 brings the open connections; the cache keeps at most MaxLinks of them, closed
 ones included, and one counter sample for each open one.
 */
module LinkCache {
  import opened Common

  const MAX_LINKS := 1000
  const SECOND := 1_000_000_000

  /** The sample of the process-wide totals is kept under this name. */
  const TOTAL := "__total__"

  datatype Link = Link(
    upload: int,
    download: int,
    uploadRate: real,
    downloadRate: real,
    firstSeen: int,
    lastSeen: int,
    active: bool)

  datatype Sample = Sample(upload: int, download: int, at: int)

  datatype Stats = Stats(active: nat, total: nat, uploadTotal: int, downloadTotal: int, uploadRate: int,
      downloadRate: int)

  const NO_STATS := Stats(0, 0, 0, 0, 0, 0)

  datatype Connection = Connection(id: string, upload: int, download: int)

  datatype Payload = Payload(uploadTotal: int, downloadTotal: int, connections: seq<Connection>)

  datatype Cache = Cache(links: map<string, Link>, order: seq<string>, samples: map<string, Sample>, closed: nat,
      stats: Stats)

  const EMPTY := Cache(map[], [], map[], 0, NO_STATS)

  // ----- rates

  /** A link's rate in bytes per second; a counter that went back keeps the old rate. */
  function LinkRate(before: int, now: int, elapsed: int, former: real): real
    requires elapsed > 0
  {
    if now >= before then (now - before) as real * SECOND as real / elapsed as real else former
  }

  /** A total's rate in whole bytes per second; a counter that went back has none. */
  function TotalRate(before: int, total: int, elapsed: int): int
    requires elapsed > 0
  {
    if total >= before then (total - before) * SECOND / elapsed else 0
  }

  function Rated(link: Link, samples: map<string, Sample>, c: Connection, now: int): Link {
    if c.id in samples && now > samples[c.id].at then
      var p := samples[c.id];
      link.(uploadRate := LinkRate(p.upload, c.upload, now - p.at, link.uploadRate),
            downloadRate := LinkRate(p.download, c.download, now - p.at, link.downloadRate))
    else link
  }

  // ----- eviction

  /** The first index from `i` on whose link is closed, or the length of the order. */
  function FirstClosed(links: map<string, Link>, order: seq<string>, i: nat): (k: nat)
    requires i <= |order|
    ensures i <= k <= |order|
    decreases |order| - i
  {
    if i == |order| || order[i] !in links || !links[order[i]].active then i else FirstClosed(links, order, i + 1)
  }

  function Without(c: Cache, i: nat): Cache
    requires i < |c.order|
  {
    c.(links := c.links - {c.order[i]}, samples := c.samples - {c.order[i]}, order := c.order[..i] + c.order[i + 1..])
  }

  /** Where evictOldestLocked drops: the oldest closed link, or else the oldest. */
  function Victim(c: Cache): (i: nat)
    requires c.order != []
    ensures i < |c.order|
  {
    var i := FirstClosed(c.links, c.order, 0);
    if i < |c.order| then i else 0
  }

  function Evict(c: Cache): Cache
    requires c.order != []
  {
    Without(c, Victim(c))
  }

  // ----- a poll

  /** A place for a connection: its own link, or a new one at the end of the order. */
  function Admit(c: Cache, id: string, now: int): (a: Cache)
    ensures id in a.links
  {
    if id in c.links then c
    else
      var room := if |c.order| >= MAX_LINKS then Evict(c) else c;
      room.(links := room.links[id := Link(0, 0, 0.0, 0.0, now, now, false)], order := room.order + [id])
  }

  /** One connection of the payload. */
  function Observe(c: Cache, conn: Connection, now: int): Cache {
    var a := Admit(c, conn.id, now);
    var link := Rated(a.links[conn.id], a.samples, conn, now);
    var current := link.(upload := conn.upload, download := conn.download, lastSeen := now, active := true);
    a.(links := a.links[conn.id := current],
       samples := a.samples[conn.id := Sample(conn.upload, conn.download, now)])
  }

  function ObserveAll(c: Cache, connections: seq<Connection>, now: int): Cache
    decreases |connections|
  {
    if connections == [] then c
    else Observe(ObserveAll(c, connections[..|connections| - 1], now), connections[|connections| - 1], now)
  }

  function Closed(link: Link, now: int): Link {
    if link.active then link.(active := false, uploadRate := 0.0, downloadRate := 0.0, lastSeen := now) else link
  }

  function Ids(connections: seq<Connection>): set<string> {
    set i | 0 <= i < |connections| :: connections[i].id
  }

  function ActiveIds(links: map<string, Link>): set<string> {
    set id | id in links && links[id].active
  }

  function MarkLinks(links: map<string, Link>, gone: set<string>, now: int): map<string, Link> {
    map id | id in links :: if id in gone then Closed(links[id], now) else links[id]
  }

  /** Links that are not in the payload are closed and lose their sample. */
  function Mark(c: Cache, gone: set<string>, now: int): Cache {
    c.(links := MarkLinks(c.links, gone, now), samples := c.samples - gone,
        closed := c.closed + |ActiveIds(c.links) * gone|)
  }

  function UploadRate(before: map<string, Sample>, p: Payload, now: int): int {
    if TOTAL in before && now > before[TOTAL].at then
      TotalRate(before[TOTAL].upload, p.uploadTotal, now - before[TOTAL].at)
    else 0
  }

  function DownloadRate(before: map<string, Sample>, p: Payload, now: int): int {
    if TOTAL in before && now > before[TOTAL].at then
      TotalRate(before[TOTAL].download, p.downloadTotal, now - before[TOTAL].at)
    else 0
  }

  function WithTotals(c: Cache, p: Payload, now: int): Cache {
    c.(samples := c.samples[TOTAL := Sample(p.uploadTotal, p.downloadTotal, now)])
  }

  function PollLinks(c: Cache, p: Payload, now: int): Cache {
    ObserveAll(WithTotals(c, p, now), p.connections, now)
  }

  function Poll(c: Cache, p: Payload, now: int): Cache {
    var all, seen := PollLinks(c, p, now), Ids(p.connections);
    Mark(all, all.links.Keys - seen, now).(
      stats := Stats(|all.links.Keys * seen|, |all.links|, p.uploadTotal, p.downloadTotal,
          UploadRate(c.samples, p, now), DownloadRate(c.samples, p, now)))
  }

  lemma NothingMarked(c: Cache, now: int)
    ensures Mark(c, {}, now) == c
  {
    assert MarkLinks(c.links, {}, now) == c.links;
    assert c.samples - {} == c.samples;
    assert ActiveIds(c.links) * {} == {};
  }

  lemma MarkOneMoreLink(links: map<string, Link>, gone: set<string>, id: string, now: int)
    requires id in links && id !in gone
    ensures MarkLinks(links, gone + {id}, now) == MarkLinks(links, gone, now)[id := Closed(links[id], now)]
  {
  }

  lemma CloseOneMore(active: set<string>, gone: set<string>, id: string)
    requires id !in gone
    ensures |active * (gone + {id})| == |active * gone| + if id in active then 1 else 0
  {
    if id in active {
      assert active * (gone + {id}) == (active * gone) + {id};
    } else {
      assert active * (gone + {id}) == active * gone;
    }
  }

  lemma MarkOneMore(c: Cache, gone: set<string>, id: string, now: int)
    requires id in c.links && id !in gone
    ensures
      var before := Mark(c, gone, now);
      && before.links[id] == c.links[id]
      && Mark(c, gone + {id}, now) ==
          before.(links := before.links[id := Closed(c.links[id], now)],
                  samples := before.samples - {id},
                  closed := before.closed + if c.links[id].active then 1 else 0)
  {
    MarkOneMoreLink(c.links, gone, id, now);
    CloseOneMore(ActiveIds(c.links), gone, id);
    assert c.samples - (gone + {id}) == c.samples - gone - {id};
  }

  // ----- the monitor

  class Monitor {
    var links: map<string, Link>
    var order: seq<string>
    var lastSeen: map<string, Sample>
    var closed: nat
    var stats: Stats

    function View(): Cache
      reads this
    {
      Cache(links, order, lastSeen, closed, stats)
    }

    constructor ()
      ensures View() == EMPTY
    {
      links, order, lastSeen, closed, stats := map[], [], map[], 0, NO_STATS;
    }

    method Reset()
      modifies this
      ensures View() == EMPTY
    {
      links, order, lastSeen, closed, stats := map[], [], map[], 0, NO_STATS;
    }

    method EvictOldest()
      requires order != []
      modifies this
      ensures View() == Evict(old(View()))
    {
      for i := 0 to |order|
        invariant View() == old(View())
        invariant FirstClosed(links, order, 0) == FirstClosed(links, order, i)
      {
        var id := order[i];
        if id !in links || !links[id].active {
          links := links - {id};
          lastSeen := lastSeen - {id};
          order := order[..i] + order[i + 1..];
          return;
        }
      }
      var oldest := order[0];
      links := links - {oldest};
      lastSeen := lastSeen - {oldest};
      order := order[1..];
      assert order == old(order)[..0] + old(order)[1..];
    }

    method ObserveOne(conn: Connection, now: int)
      modifies this
      ensures View() == Observe(old(View()), conn, now)
    {
      var id := conn.id;
      if id !in links {
        if |order| >= MAX_LINKS {
          EvictOldest();
        }
        links := links[id := Link(0, 0, 0.0, 0.0, now, now, false)];
        order := order + [id];
      }
      var link := links[id];
      if id in lastSeen && now > lastSeen[id].at {
        var p := lastSeen[id];
        if conn.upload >= p.upload {
          link := link.(uploadRate := (conn.upload - p.upload) as real * SECOND as real / (now - p.at) as real);
        }
        if conn.download >= p.download {
          link := link.(downloadRate := (conn.download - p.download) as real * SECOND as real / (now - p.at) as real);
        }
      }
      lastSeen := lastSeen[id := Sample(conn.upload, conn.download, now)];
      links := links[id := link.(upload := conn.upload, download := conn.download, lastSeen := now, active := true)];
    }

    method CloseLink(id: string, now: int, ghost c: Cache, ghost gone: set<string>)
      requires id in c.links && id !in gone && View() == Mark(c, gone, now)
      modifies this
      ensures View() == Mark(c, gone + {id}, now)
    {
      MarkOneMore(c, gone, id, now);
      var link := links[id];
      if link.active {
        links := links[id := link.(active := false, uploadRate := 0.0, downloadRate := 0.0, lastSeen := now)];
        closed := closed + 1;
      } else {
        assert links[id := link] == links;
      }
      lastSeen := lastSeen - {id};
    }

    /** The map is walked in any order. */
    method MarkVanished(seen: set<string>, now: int) returns (active: nat)
      modifies this
      ensures View() == Mark(old(View()), old(links).Keys - seen, now)
      ensures active == |old(links).Keys * seen|
    {
      active := 0;
      var todo := links.Keys;
      ghost var c, gone, kept: set<string> := View(), {}, {};
      NothingMarked(c, now);
      while todo != {}
        invariant Walked(c.links.Keys, seen, todo, gone, kept)
        invariant View() == Mark(c, gone, now)
        invariant active == |kept|
      {
        var id :| id in todo;
        WalkOn(c.links.Keys, seen, todo, gone, kept, id);
        todo := todo - {id};
        if id in seen {
          active := active + 1;
          kept := kept + {id};
        } else {
          CloseLink(id, now, c, gone);
          gone := gone + {id};
        }
      }
      WalkEnds(c.links.Keys, seen, gone, kept);
    }

    method TotalRates(p: Payload, now: int) returns (up: int, down: int)
      ensures up == UploadRate(lastSeen, p, now) && down == DownloadRate(lastSeen, p, now)
    {
      up, down := 0, 0;
      if TOTAL in lastSeen && now > lastSeen[TOTAL].at {
        var prev := lastSeen[TOTAL];
        if p.uploadTotal >= prev.upload {
          up := (p.uploadTotal - prev.upload) * SECOND / (now - prev.at);
        }
        if p.downloadTotal >= prev.download {
          down := (p.downloadTotal - prev.download) * SECOND / (now - prev.at);
        }
      }
    }

    method ObserveConnections(p: Payload, now: int) returns (seen: set<string>)
      modifies this
      ensures View() == ObserveAll(old(View()), p.connections, now)
      ensures seen == Ids(p.connections)
    {
      seen := {};
      for i := 0 to |p.connections|
        invariant View() == ObserveAll(old(View()), p.connections[..i], now)
        invariant seen == Ids(p.connections[..i])
      {
        TakeOneMore(p.connections, i);
        IdsOfMore(p.connections[..i], p.connections[i]);
        seen := seen + {p.connections[i].id};
        ObserveOne(p.connections[i], now);
      }
      TakeAll(p.connections);
    }

    method PollOnce(p: Payload, now: int)
      modifies this
      ensures View() == Poll(old(View()), p, now)
    {
      var up, down := TotalRates(p, now);
      lastSeen := lastSeen[TOTAL := Sample(p.uploadTotal, p.downloadTotal, now)];
      assert View() == WithTotals(old(View()), p, now);
      var seen := ObserveConnections(p, now);
      ghost var all := View();
      var active := MarkVanished(seen, now);
      assert |links| == |all.links| by {
        assert |links.Keys| == |links| && |all.links.Keys| == |all.links|;
        assert links.Keys == all.links.Keys;
      }
      stats := Stats(active, |links|, p.uploadTotal, p.downloadTotal, up, down);
    }
  }

  /** A walk over `keys` that has still to visit `todo`: ids in `seen` are kept, the others are gone. */
  ghost predicate Walked(keys: set<string>, seen: set<string>, todo: set<string>, gone: set<string>,
      kept: set<string>) {
    && todo <= keys
    && (forall id :: id in gone <==> id in keys && id !in todo && id !in seen)
    && (forall id :: id in kept <==> id in keys && id !in todo && id in seen)
  }

  lemma WalkOn(keys: set<string>, seen: set<string>, todo: set<string>, gone: set<string>, kept: set<string>,
      id: string)
    requires Walked(keys, seen, todo, gone, kept) && id in todo
    ensures id in seen ==> Walked(keys, seen, todo - {id}, gone, kept + {id}) && id !in kept
    ensures id !in seen ==> Walked(keys, seen, todo - {id}, gone + {id}, kept) && id !in gone
  {
  }

  lemma WalkEnds(keys: set<string>, seen: set<string>, gone: set<string>, kept: set<string>)
    requires Walked(keys, seen, {}, gone, kept)
    ensures gone == keys - seen && kept == keys * seen
  {
  }

  lemma IdsOfMore(connections: seq<Connection>, c: Connection)
    ensures Ids(connections + [c]) == Ids(connections) + {c.id}
  {
    var all := connections + [c];
    forall id | id in Ids(connections) ensures id in Ids(all) {
      var i :| 0 <= i < |connections| && connections[i].id == id;
      assert all[i].id == id;
    }
    assert all[|connections|].id == c.id;
  }
}
