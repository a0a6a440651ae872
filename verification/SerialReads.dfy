// The staleness protocol with nothing in between is the atomic server: a read whose three
// steps follow each other answers and caches as the HEAD handler does, and a writer whose
// commit and invalidate follow each other leaves what a change of main leaves
// (internal/server/server.go and cache.go).
module SerialReads {
  import opened Outcomes
  import opened Placeholders
  import opened CommitGraph
  import opened Serving
  import Staleness

  // The protocol's state t stands for the server's state s.
  ghost predicate SameServer(ttl: Staleness.Ttls, cfg: Config, t: Staleness.State, s: State) {
    && cfg.ttl == (if ttl.server > 0 then Some(ttl.server) else None)
    && t.heads == s.db.prompts && SameCache(t.serving.cache, s.cache)
  }

  ghost predicate SameCache(x: map<string, Staleness.Entry>, y: map<string, Entry>) {
    x.Keys == y.Keys && forall u :: u in x ==> y[u] == Entry(HeadResponse(u, x[u].row), x[u].expiry)
  }

  // A lookup, a store read and a put, one after the other.
  function ReadAlone(ttl: Staleness.Ttls, t: Staleness.State, id: nat, uri: string): Staleness.State {
    Staleness.Step(ttl, Staleness.Step(ttl, Staleness.Step(ttl, t, Staleness.Lookup(id, uri)), Staleness.ReadStore(id)),
                   Staleness.PutAndReply(id))
  }

  ghost predicate Hit(ttl: Staleness.Ttls, t: Staleness.State, uri: string) {
    ttl.server > 0 && uri in t.serving.cache && t.now <= t.serving.cache[uri].expiry
  }

  lemma HitAlone(ttl: Staleness.Ttls, t: Staleness.State, id: nat, uri: string)
    requires id !in t.serving.readers && Hit(ttl, t, uri)
    ensures var t', e := ReadAlone(ttl, t, id, uri), t.serving.cache[uri];
      && t'.heads == t.heads && t'.serving.cache == t.serving.cache
      && t'.serving.replies == t.serving.replies + [Staleness.Reply(uri, e.row, t.now, |t.past|, e.read, e.delay, e.put)]
  {
    var t1 := Staleness.Step(ttl, t, Staleness.Lookup(id, uri));
    assert id !in t1.serving.readers;
    assert Staleness.Step(ttl, t1, Staleness.ReadStore(id)).serving == t1.serving;
  }

  lemma MissAlone(ttl: Staleness.Ttls, t: Staleness.State, id: nat, uri: string)
    requires t.past != [] && t.past[|t.past| - 1].now == t.now && !Hit(ttl, t, uri) && uri in t.heads
    ensures var t', row, n := ReadAlone(ttl, t, id, uri), t.heads[uri], |t.past|;
      && t'.heads == t.heads
      && t'.serving.cache == (if ttl.server > 0
           then t.serving.cache[uri := Staleness.Entry(row, t.now + ttl.server, n, 0, n + 2)] else t.serving.cache)
      && t'.serving.replies == t.serving.replies + [Staleness.Reply(uri, row, t.now, n + 2, n, 0, n + 2)]
  {
    var t1 := Staleness.Step(ttl, t, Staleness.Lookup(id, uri));
    var t2 := Staleness.Step(ttl, t1, Staleness.ReadStore(id));
    assert t1.serving == t.serving.(readers := t.serving.readers[id := Staleness.Missed(uri)]);
    assert t2.serving == t.serving.(readers := t.serving.readers[id := Staleness.Holding(uri, t.heads[uri], |t.past|)]);
    assert t2.past[|t.past|].now == t.now;
  }

  lemma NothingAlone(ttl: Staleness.Ttls, t: Staleness.State, id: nat, uri: string)
    requires !Hit(ttl, t, uri) && uri !in t.heads
    ensures var t' := ReadAlone(ttl, t, id, uri);
      t'.heads == t.heads && t'.serving.cache == t.serving.cache && t'.serving.replies == t.serving.replies
  {
    var t1 := Staleness.Step(ttl, t, Staleness.Lookup(id, uri));
    assert t1.serving == t.serving.(readers := t.serving.readers[id := Staleness.Missed(uri)]);
  }

  // The three steps leave the cache of the HEAD handler and give its answer: a response
  // with that row when it serves one, and none when the uri is not served.
  lemma ReadAloneIsHandled(ttl: Staleness.Ttls, cfg: Config, t: Staleness.State, s: State, id: nat, uri: string)
    requires SameServer(ttl, cfg, t, s) && Servable(s.db) && id !in t.serving.readers
    requires t.past != [] && t.past[|t.past| - 1].now == t.now
    ensures var t' := ReadAlone(ttl, t, id, uri);
      var (s', r) := HandleGetHead(cfg, s, uri, t.now);
      && SameServer(ttl, cfg, t', s')
      && (if r.Served? then
            && |t'.serving.replies| == |t.serving.replies| + 1
            && var reply := t'.serving.replies[|t.serving.replies|]; reply.time == t.now && r == HeadResponse(uri, reply.row)
          else r == NoSuchThing && t'.serving.replies == t.serving.replies)
  {
    assert CacheHit(cfg, s.cache, uri, t.now) <==> Hit(ttl, t, uri);
    if Hit(ttl, t, uri) {
      HitAlone(ttl, t, id, uri);
    } else if uri in t.heads {
      MissAlone(ttl, t, id, uri);
    } else {
      NothingAlone(ttl, t, id, uri);
    }
  }

  // A commit and its invalidate, one after the other, leave the served rows and the cache
  // of a change of main.
  lemma WriteAloneIsHandled(ttl: Staleness.Ttls, cfg: Config, t: Staleness.State, s: State, id: nat, uri: string, row: Row<Content>)
    requires SameServer(ttl, cfg, t, s) && id !in t.writing.writers
    requires cfg.ttl.None? ==> s.cache == map[]
    ensures var t' := Staleness.Step(ttl, Staleness.Step(ttl, t, Staleness.Action.Commit(id, uri, row)), Staleness.Invalidate(id));
      SameServer(ttl, cfg, t', State(s.db.(prompts := s.db.prompts[uri := row]), Dropped(cfg, s.cache, uri), s.events))
      && id !in t'.writing.writers
  {
  }

  // A client that dropped its entry has to ask the server.
  lemma DroppedClientAsks(ttl: Staleness.Ttls, t: Staleness.State, id: nat, client: nat, uri: string)
    ensures var t' := Staleness.Step(ttl, Staleness.Step(ttl, t, Staleness.ClientDrop(client, uri)), Staleness.ClientGet(id, client, uri));
      && id in t'.clients.asks && t'.clients.asks[id] == Staleness.Ask(client, uri, t.now)
      && t'.clients.replies == t.clients.replies
  {
  }

  // What a client received answers its calls for one client ttl from then on, and no
  // longer; then it has to ask again.
  lemma ClientKeepsForOneTtl(ttl: Staleness.Ttls, t: Staleness.State, id: nat, k: nat, wait: nat, again: nat)
    requires id in t.clients.asks && k < |t.serving.replies|
    requires t.serving.replies[k].uri == t.clients.asks[id].uri && t.serving.replies[k].time >= t.clients.asks[id].asked
    ensures var ask := t.clients.asks[id];
      var got := Staleness.Got(t.serving.replies[k], t.now - ask.asked);
      var t' := Staleness.Step(ttl, Staleness.Step(ttl, t, Staleness.ClientReceive(id, k)), Staleness.Tick(wait));
      var c, c' := t'.clients, Staleness.Step(ttl, t', Staleness.ClientGet(again, ask.client, ask.uri)).clients;
      if wait < ttl.client then c' == c.(replies := c.replies + [Staleness.ClientReply(got, t.now + wait, |t'.past|)])
      else c' == c.(asks := c.asks[again := Staleness.Ask(ask.client, ask.uri, t.now + wait)])
  {
  }
}
