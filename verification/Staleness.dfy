// How stale a HEAD response can be when cache lookup, store read, cache put, commit
// and invalidate interleave, for the server-side cache and for the client-side one
// on top of it (internal/server/server.go, cache.go, adapters/python/promptnet/client.py).
module Staleness {
  import opened CommitGraph

  type Head = Row<Content>

  // The clock and the served rows after some step.
  datatype Moment = Moment(now: int, heads: map<string, Head>)

  // A server response, given at a time and in the step that made a moment: read is the
  // moment whose store contents it carries, delay the time from that read to the put
  // of the reader that fetched it, put the moment this put made.
  datatype Reply = Reply(uri: string, row: Head, time: int, made: nat, read: nat, delay: int, put: nat)

  // put is the moment the put made.
  datatype Entry = Entry(row: Head, expiry: int, read: nat, delay: int, put: nat)

  datatype Reader = Missed(uri: string) | Holding(uri: string, row: Head, read: nat)

  datatype Serving = Serving(cache: map<string, Entry>, readers: map<nat, Reader>, replies: seq<Reply>)

  // A writer between its commit, which made moment at, and its invalidate.
  datatype Writer = Writer(uri: string, at: nat)

  datatype Committed = Committed(uri: string, row: Head)

  // Besides the writers at work: what the commit that made a moment wrote, the moment
  // the last commit to a uri made, and the moment made by the invalidate that followed
  // a commit.
  datatype Writing = Writing(
    writers: map<nat, Writer>, commits: map<nat, Committed>, lastCommit: map<string, nat>, dropped: map<nat, nat>)

  // A client that asked the server at time asked.
  datatype Ask = Ask(client: nat, uri: string, asked: int)

  // What a client got: the server's reply and the duration of that call.
  datatype Got = Got(reply: Reply, rpc: int)

  datatype ClientEntry = ClientEntry(got: Got, expiry: int)

  datatype ClientReply = ClientReply(got: Got, time: int, made: nat)

  datatype Clients = Clients(local: map<(nat, string), ClientEntry>, asks: map<nat, Ask>, replies: seq<ClientReply>)

  datatype State = State(
    now: int, heads: map<string, Head>, past: seq<Moment>, serving: Serving, writing: Writing, clients: Clients)

  const INIT: State :=
    State(0, map[], [Moment(0, map[])], Serving(map[], map[], []), Writing(map[], map[], map[], map[]), Clients(map[], map[], []))

  // A non-positive ttl disables the server's cache, ttl 0 the client's.
  datatype Ttls = Ttls(server: int, client: nat) {
    function Server(): nat {
      if server > 0 then server else 0
    }
  }

  datatype Action =
    | Tick(d: nat)
    | Lookup(id: nat, uri: string)
    | ReadStore(id: nat)
    | PutAndReply(id: nat)
    | Commit(id: nat, uri: string, row: Head)
    | Invalidate(id: nat)
    | ClientGet(id: nat, client: nat, uri: string)
    | ClientReceive(id: nat, reply: nat)
    | ClientDrop(client: nat, uri: string)

  // ---- one step, part by part; what is not due changes nothing ---------------

  function NextNow(s: State, a: Action): int {
    if a.Tick? then s.now + a.d else s.now
  }

  predicate Commits(s: State, a: Action) {
    a.Commit? && a.id !in s.writing.writers
  }

  predicate Invalidates(s: State, a: Action) {
    a.Invalidate? && a.id in s.writing.writers
  }

  function NextHeads(s: State, a: Action): map<string, Head> {
    if Commits(s, a) then s.heads[a.uri := a.row] else s.heads
  }

  function NextWriting(s: State, a: Action): Writing {
    var w := s.writing;
    if Commits(s, a) then
      Writing(w.writers[a.id := Writer(a.uri, |s.past|)], w.commits[|s.past| := Committed(a.uri, a.row)],
              w.lastCommit[a.uri := |s.past|], w.dropped)
    else if Invalidates(s, a) then
      Writing(w.writers - {a.id}, w.commits, w.lastCommit, w.dropped[w.writers[a.id].at := |s.past|])
    else w
  }

  // A hit answers at once; a miss reads the store later, then puts and answers.
  function AfterLookup(ttl: Ttls, s: State, id: nat, uri: string): Serving {
    var v := s.serving;
    if ttl.server > 0 && uri in v.cache && s.now <= v.cache[uri].expiry then
      var e := v.cache[uri];
      v.(replies := v.replies + [Reply(uri, e.row, s.now, |s.past|, e.read, e.delay, e.put)])
    else v.(readers := v.readers[id := Missed(uri)])
  }

  function AfterRead(s: State, id: nat): Serving {
    var v := s.serving;
    if id !in v.readers || !v.readers[id].Missed? then v
    else
      var uri := v.readers[id].uri;
      if uri in s.heads && s.past != [] then v.(readers := v.readers[id := Holding(uri, s.heads[uri], |s.past| - 1)])
      else v.(readers := v.readers - {id})
  }

  function AfterPut(ttl: Ttls, s: State, id: nat): Serving {
    var v := s.serving;
    if id !in v.readers || !v.readers[id].Holding? || v.readers[id].read >= |s.past| then v
    else
      var h := v.readers[id];
      var delay := s.now - s.past[h.read].now;
      var entry := Entry(h.row, s.now + ttl.server, h.read, delay, |s.past|);
      Serving(if ttl.server > 0 then v.cache[h.uri := entry] else v.cache,
              v.readers - {id},
              v.replies + [Reply(h.uri, h.row, s.now, |s.past|, h.read, delay, |s.past|)])
  }

  function NextServing(ttl: Ttls, s: State, a: Action): Serving {
    if a.Lookup? then AfterLookup(ttl, s, a.id, a.uri)
    else if a.ReadStore? then AfterRead(s, a.id)
    else if a.PutAndReply? then AfterPut(ttl, s, a.id)
    else if Invalidates(s, a) then s.serving.(cache := s.serving.cache - {s.writing.writers[a.id].uri})
    else s.serving
  }

  function AfterClientGet(ttl: Ttls, s: State, id: nat, client: nat, uri: string): Clients {
    var c := s.clients;
    if ttl.client > 0 && (client, uri) in c.local && c.local[(client, uri)].expiry > s.now then
      c.(replies := c.replies + [ClientReply(c.local[(client, uri)].got, s.now, |s.past|)])
    else c.(asks := c.asks[id := Ask(client, uri, s.now)])
  }

  // The answer to a call is some response for its uri given since it was made.
  function AfterReceive(ttl: Ttls, s: State, id: nat, k: nat): Clients {
    var c := s.clients;
    if id !in c.asks || k >= |s.serving.replies| || s.serving.replies[k].uri != c.asks[id].uri
       || s.serving.replies[k].time < c.asks[id].asked then c
    else
      var ask := c.asks[id];
      var got := Got(s.serving.replies[k], s.now - ask.asked);
      Clients(if ttl.client > 0 then c.local[(ask.client, ask.uri) := ClientEntry(got, s.now + ttl.client)] else c.local,
              c.asks - {id},
              c.replies + [ClientReply(got, s.now, |s.past|)])
  }

  function NextClients(ttl: Ttls, s: State, a: Action): Clients {
    if a.ClientGet? then AfterClientGet(ttl, s, a.id, a.client, a.uri)
    else if a.ClientReceive? then AfterReceive(ttl, s, a.id, a.reply)
    else if a.ClientDrop? then s.clients.(local := s.clients.local - {(a.client, a.uri)})
    else s.clients
  }

  function Step(ttl: Ttls, s: State, a: Action): State {
    State(NextNow(s, a), NextHeads(s, a), s.past + [Moment(NextNow(s, a), NextHeads(s, a))],
          NextServing(ttl, s, a), NextWriting(s, a), NextClients(ttl, s, a))
  }

  function Run(ttl: Ttls, acts: seq<Action>): State {
    if acts == [] then INIT else Step(ttl, Run(ttl, acts[..|acts| - 1]), acts[|acts| - 1])
  }

  // ---- the clock and the past ------------------------------------------------

  // At moment k the store served row for uri.
  ghost predicate WasHead(past: seq<Moment>, k: nat, uri: string, row: Head) {
    k < |past| && uri in past[k].heads && past[k].heads[uri] == row
  }

  ghost predicate ClockInv(s: State) {
    && s.past != [] && s.past[|s.past| - 1] == Moment(s.now, s.heads)
    && forall k :: 0 <= k < |s.past| ==> s.past[k].now <= s.now
  }

  // ---- the server's responses ------------------------------------------------

  ghost predicate GoodEntry(ttl: Ttls, past: seq<Moment>, uri: string, e: Entry) {
    && WasHead(past, e.read, uri, e.row) && e.delay >= 0
    && e.expiry == past[e.read].now + e.delay + ttl.Server()
  }

  // The response carries what the store served at a moment before it, no earlier than
  // the response minus the ttl minus the fetching reader's read-to-put delay.
  ghost predicate GoodReply(ttl: Ttls, past: seq<Moment>, r: Reply) {
    && WasHead(past, r.read, r.uri, r.row) && r.read < r.made <= |past| && r.delay >= 0
    && r.time - ttl.Server() - r.delay <= past[r.read].now <= r.time
  }

  ghost predicate ServingInv(ttl: Ttls, past: seq<Moment>, v: Serving) {
    && (forall u :: u in v.cache ==> GoodEntry(ttl, past, u, v.cache[u]))
    && (forall id :: id in v.readers && v.readers[id].Holding? ==>
          WasHead(past, v.readers[id].read, v.readers[id].uri, v.readers[id].row))
    && (forall k :: 0 <= k < |v.replies| ==> GoodReply(ttl, past, v.replies[k]))
  }

  lemma ServingInvGrows(ttl: Ttls, past: seq<Moment>, past': seq<Moment>, v: Serving)
    requires ServingInv(ttl, past, v) && past <= past'
    ensures ServingInv(ttl, past', v)
  {
  }

  lemma LookupKeepsServing(ttl: Ttls, s: State, id: nat, uri: string)
    requires ClockInv(s) && ServingInv(ttl, s.past, s.serving)
    ensures ServingInv(ttl, s.past, AfterLookup(ttl, s, id, uri))
  {
  }

  lemma ReadKeepsServing(ttl: Ttls, s: State, id: nat)
    requires ClockInv(s) && ServingInv(ttl, s.past, s.serving)
    ensures ServingInv(ttl, s.past, AfterRead(s, id))
  {
  }

  lemma PutKeepsServing(ttl: Ttls, s: State, id: nat)
    requires ClockInv(s) && ServingInv(ttl, s.past, s.serving)
    ensures ServingInv(ttl, s.past, AfterPut(ttl, s, id))
  {
  }

  lemma StepKeepsServing(ttl: Ttls, s: State, a: Action)
    requires ClockInv(s) && ServingInv(ttl, s.past, s.serving)
    ensures ServingInv(ttl, Step(ttl, s, a).past, NextServing(ttl, s, a))
  {
    if a.Lookup? {
      LookupKeepsServing(ttl, s, a.id, a.uri);
    } else if a.ReadStore? {
      ReadKeepsServing(ttl, s, a.id);
    } else if a.PutAndReply? {
      PutKeepsServing(ttl, s, a.id);
    }
    ServingInvGrows(ttl, s.past, Step(ttl, s, a).past, NextServing(ttl, s, a));
  }

  // ---- the client's responses ------------------------------------------------

  // The server gave the reply no earlier than since, and by the given moment and time.
  ghost predicate GotWithin(replies: seq<Reply>, got: Got, since: int, n: nat, now: int) {
    got.reply in replies && since <= got.reply.time <= now && got.reply.made <= n
  }

  ghost predicate RepliesInv(replies: seq<Reply>, n: nat, now: int) {
    forall k :: 0 <= k < |replies| ==> replies[k].time <= now && replies[k].made <= n
  }

  ghost predicate ClientsInv(ttl: Ttls, replies: seq<Reply>, n: nat, now: int, c: Clients) {
    && (forall x :: x in c.local ==>
          && c.local[x].got.reply.uri == x.1
          && GotWithin(replies, c.local[x].got, c.local[x].expiry - ttl.client - c.local[x].got.rpc, n, now))
    && (forall k :: 0 <= k < |c.replies| ==>
          GotWithin(replies, c.replies[k].got, c.replies[k].time - ttl.client - c.replies[k].got.rpc,
                    c.replies[k].made, c.replies[k].time))
  }

  lemma ClientsInvGrows(ttl: Ttls, replies: seq<Reply>, replies': seq<Reply>, n: nat, n': nat, now: int, now': int, c: Clients)
    requires ClientsInv(ttl, replies, n, now, c) && replies <= replies' && n <= n' && now <= now'
    ensures ClientsInv(ttl, replies', n', now', c)
  {
  }

  lemma GetKeepsClients(ttl: Ttls, s: State, id: nat, client: nat, uri: string)
    requires ClientsInv(ttl, s.serving.replies, |s.past|, s.now, s.clients)
    ensures ClientsInv(ttl, s.serving.replies, |s.past|, s.now, AfterClientGet(ttl, s, id, client, uri))
  {
  }

  lemma ReceiveKeepsClients(ttl: Ttls, s: State, id: nat, k: nat)
    requires RepliesInv(s.serving.replies, |s.past|, s.now)
    requires ClientsInv(ttl, s.serving.replies, |s.past|, s.now, s.clients)
    ensures ClientsInv(ttl, s.serving.replies, |s.past|, s.now, AfterReceive(ttl, s, id, k))
  {
    var replies, c, c' := s.serving.replies, s.clients, AfterReceive(ttl, s, id, k);
    if c' != c {
      var got := Got(replies[k], s.now - c.asks[id].asked);
      assert GotWithin(replies, got, s.now - got.rpc, |s.past|, s.now);
    }
  }

  lemma StepKeepsReplies(ttl: Ttls, s: State, a: Action)
    requires RepliesInv(s.serving.replies, |s.past|, s.now)
    ensures RepliesInv(NextServing(ttl, s, a).replies, |s.past| + 1, NextNow(s, a))
    ensures s.serving.replies <= NextServing(ttl, s, a).replies
  {
  }

  lemma StepKeepsClients(ttl: Ttls, s: State, a: Action)
    requires RepliesInv(s.serving.replies, |s.past|, s.now)
    requires ClientsInv(ttl, s.serving.replies, |s.past|, s.now, s.clients)
    ensures ClientsInv(ttl, NextServing(ttl, s, a).replies, |s.past| + 1, NextNow(s, a), NextClients(ttl, s, a))
  {
    if a.ClientGet? {
      GetKeepsClients(ttl, s, a.id, a.client, a.uri);
    } else if a.ClientReceive? {
      ReceiveKeepsClients(ttl, s, a.id, a.reply);
    }
    StepKeepsReplies(ttl, s, a);
    ClientsInvGrows(ttl, s.serving.replies, NextServing(ttl, s, a).replies, |s.past|, |s.past| + 1, s.now, NextNow(s, a),
                    NextClients(ttl, s, a));
  }

  // ---- who can leave a stale entry -------------------------------------------

  // Since its last commit a uri's head has not changed; before any commit it had none.
  ghost predicate HeadsInv(s: State) {
    && (forall u :: u in s.writing.lastCommit ==> u in s.heads && s.writing.lastCommit[u] < |s.past|)
    && (forall u, k {:trigger WasHead(s.past, k, u, s.heads[u])} ::
          u in s.writing.lastCommit && u in s.heads && s.writing.lastCommit[u] <= k < |s.past| ==> WasHead(s.past, k, u, s.heads[u]))
    && (forall u, k :: u !in s.writing.lastCommit && 0 <= k < |s.past| ==> u !in s.past[k].heads)
  }

  lemma StepKeepsHeads(ttl: Ttls, s: State, a: Action)
    requires ClockInv(s) && HeadsInv(s)
    ensures HeadsInv(Step(ttl, s, a))
  {
    var s' := Step(ttl, s, a);
    assert forall u :: u !in s'.writing.lastCommit ==> u !in s.past[|s.past| - 1].heads;
    forall u, k | u in s'.writing.lastCommit && u in s'.heads && s'.writing.lastCommit[u] <= k < |s'.past|
      ensures WasHead(s'.past, k, u, s'.heads[u])
    {
      if k < |s.past| {
        assert u in s.heads && s'.heads[u] == s.heads[u];
        assert WasHead(s.past, k, u, s.heads[u]);
      }
    }
  }

  // Moments identify commits, and an invalidate comes after its commit.
  ghost predicate OrderInv(n: nat, w: Writing) {
    && (forall id :: id in w.writers ==> w.writers[id].at < n)
    && (forall u :: u in w.lastCommit ==> w.lastCommit[u] < n)
    && (forall id, u :: id in w.writers && u in w.lastCommit && w.lastCommit[u] == w.writers[id].at ==> w.writers[id].uri == u)
    && (forall c :: c in w.dropped ==> c < w.dropped[c] < n)
  }

  lemma StepKeepsOrder(s: State, a: Action)
    requires OrderInv(|s.past|, s.writing)
    ensures OrderInv(|s.past| + 1, NextWriting(s, a))
  {
  }

  ghost predicate Awaited(w: Writing, writer: Writer) {
    exists id :: id in w.writers && w.writers[id] == writer
  }

  // Each last commit has been followed by its invalidate or still has a writer about
  // to do it.
  ghost predicate AwaitInv(w: Writing) {
    forall u :: u in w.lastCommit ==> w.lastCommit[u] in w.dropped || Awaited(w, Writer(u, w.lastCommit[u]))
  }

  lemma StepKeepsAwaits(s: State, a: Action)
    requires AwaitInv(s.writing)
    ensures AwaitInv(NextWriting(s, a))
  {
    var w, w' := s.writing, NextWriting(s, a);
    forall u | u in w'.lastCommit ensures w'.lastCommit[u] in w'.dropped || Awaited(w', Writer(u, w'.lastCommit[u])) {
      if Commits(s, a) && u == a.uri {
        assert w'.writers[a.id] == Writer(u, w'.lastCommit[u]);
      } else if w.lastCommit[u] !in w.dropped {
        var id :| id in w.writers && w.writers[id] == Writer(u, w.lastCommit[u]);
        assert id in w'.writers ==> w'.writers[id] == w.writers[id];
      }
    }
  }

  // Every commit that is awaited, last or followed by its invalidate is recorded with its uri.
  ghost predicate RecordInv(w: Writing) {
    && (forall id :: id in w.writers ==> w.writers[id].at in w.commits && w.commits[w.writers[id].at].uri == w.writers[id].uri)
    && (forall u :: u in w.lastCommit ==> w.lastCommit[u] in w.commits && w.commits[w.lastCommit[u]].uri == u)
    && (forall c :: c in w.dropped ==> c in w.commits)
  }

  lemma StepKeepsRecords(s: State, a: Action)
    requires OrderInv(|s.past|, s.writing) && RecordInv(s.writing)
    ensures RecordInv(NextWriting(s, a))
  {
  }

  // Row is what the commit c to the uri wrote, or a later one up to moment k.
  ghost predicate CommittedBetween(w: Writing, c: nat, k: nat, uri: string, row: Head) {
    exists c': nat :: c <= c' <= k && c' in w.commits && w.commits[c'] == Committed(uri, row)
  }

  // The uri of the commit c has a head at moment k, written by c or later.
  ghost predicate HeadSince(w: Writing, c: nat, k: nat, heads: map<string, Head>)
    requires c in w.commits
  {
    var u := w.commits[c].uri;
    u in heads && CommittedBetween(w, c, k, u, heads[u])
  }

  // From a commit on, the head is that commit's row or a later one's.
  ghost predicate HistoryInv(past: seq<Moment>, w: Writing) {
    && (forall c :: c in w.commits ==> c < |past|)
    && (forall c: nat, k: nat :: c in w.commits && c <= k < |past| ==> HeadSince(w, c, k, past[k].heads))
  }

  lemma BetweenGrows(w: Writing, w': Writing, c: nat, k: nat, k': nat, uri: string, row: Head)
    requires CommittedBetween(w, c, k, uri, row) && k <= k'
    requires forall m :: m in w.commits ==> m in w'.commits && w'.commits[m] == w.commits[m]
    ensures CommittedBetween(w', c, k', uri, row)
  {
  }

  lemma CommitsOnlyGrow(s: State, a: Action)
    requires forall c :: c in s.writing.commits ==> c < |s.past|
    ensures var w, w' := s.writing, NextWriting(s, a);
      forall m :: m in w.commits ==> m in w'.commits && w'.commits[m] == w.commits[m]
  {
  }

  lemma HeadSinceNow(s: State, a: Action, c: nat)
    requires s.past != [] && (forall m :: m in s.writing.commits ==> m < |s.past|) && c in NextWriting(s, a).commits
    requires c in s.writing.commits ==> HeadSince(s.writing, c, |s.past| - 1, s.heads)
    ensures HeadSince(NextWriting(s, a), c, |s.past|, NextHeads(s, a))
  {
    var w, w', n := s.writing, NextWriting(s, a), |s.past|;
    var u := w'.commits[c].uri;
    CommitsOnlyGrow(s, a);
    if Commits(s, a) && u == a.uri {
      assert w'.commits[n] == Committed(u, a.row) && c <= n;
    } else {
      BetweenGrows(w, w', c, n - 1, n, u, s.heads[u]);
    }
  }

  lemma HeadSinceThen(s: State, a: Action, c: nat, k: nat)
    requires (forall m :: m in s.writing.commits ==> m < |s.past|) && c in s.writing.commits && k < |s.past|
    requires HeadSince(s.writing, c, k, s.past[k].heads)
    ensures c in NextWriting(s, a).commits && HeadSince(NextWriting(s, a), c, k, s.past[k].heads)
  {
    CommitsOnlyGrow(s, a);
    var u := s.writing.commits[c].uri;
    BetweenGrows(s.writing, NextWriting(s, a), c, k, k, u, s.past[k].heads[u]);
  }

  lemma HistoryNow(s: State, a: Action, c: nat)
    requires ClockInv(s) && HistoryInv(s.past, s.writing) && c in NextWriting(s, a).commits
    ensures c <= |s.past| && HeadSince(NextWriting(s, a), c, |s.past|, NextHeads(s, a))
  {
    var n := |s.past|;
    assert c in s.writing.commits ==> HeadSince(s.writing, c, n - 1, s.past[n - 1].heads);
    HeadSinceNow(s, a, c);
  }

  lemma HistoryThen(s: State, a: Action, c: nat, k: nat)
    requires HistoryInv(s.past, s.writing) && c in NextWriting(s, a).commits && c <= k < |s.past|
    ensures HeadSince(NextWriting(s, a), c, k, s.past[k].heads)
  {
    assert c in s.writing.commits && HeadSince(s.writing, c, k, s.past[k].heads);
    HeadSinceThen(s, a, c, k);
  }

  lemma HistoryExtends(past: seq<Moment>, m: Moment, w: Writing)
    requires forall c: nat :: c in w.commits ==> c <= |past| && HeadSince(w, c, |past|, m.heads)
    requires forall c: nat, k: nat :: c in w.commits && c <= k < |past| ==> HeadSince(w, c, k, past[k].heads)
    ensures HistoryInv(past + [m], w)
  {
  }

  lemma StepKeepsHistory(ttl: Ttls, s: State, a: Action)
    requires ClockInv(s) && HistoryInv(s.past, s.writing)
    ensures HistoryInv(Step(ttl, s, a).past, NextWriting(s, a))
  {
    forall c: nat | c in NextWriting(s, a).commits
      ensures c <= |s.past| && HeadSince(NextWriting(s, a), c, |s.past|, NextHeads(s, a))
    {
      HistoryNow(s, a, c);
    }
    forall c: nat, k: nat | c in NextWriting(s, a).commits && c <= k < |s.past|
      ensures HeadSince(NextWriting(s, a), c, k, s.past[k].heads)
    {
      HistoryThen(s, a, c, k);
    }
    HistoryExtends(s.past, Moment(NextNow(s, a), NextHeads(s, a)), NextWriting(s, a));
  }

  // What is cached was put after every invalidate of its uri.
  ghost predicate CachePutInv(v: Serving, w: Writing) {
    forall u, c :: u in v.cache && c in w.dropped && c in w.commits && w.commits[c].uri == u ==> w.dropped[c] < v.cache[u].put
  }

  // The response was put after the invalidate of c if it was given after it.
  ghost predicate PutLate(w: Writing, c: nat, r: Reply)
    requires c in w.dropped && c in w.commits
  {
    w.commits[c].uri == r.uri && w.dropped[c] < r.made ==> w.dropped[c] < r.put
  }

  // So was what is answered after an invalidate.
  ghost predicate ReplyPutInv(v: Serving, w: Writing) {
    forall k, c {:trigger PutLate(w, c, v.replies[k])} ::
      0 <= k < |v.replies| && c in w.dropped && c in w.commits ==> PutLate(w, c, v.replies[k])
  }

  ghost predicate PutInv(v: Serving, w: Writing) {
    CachePutInv(v, w) && ReplyPutInv(v, w)
  }

  lemma StepKeepsCachePuts(ttl: Ttls, s: State, a: Action)
    requires OrderInv(|s.past|, s.writing) && RecordInv(s.writing) && CachePutInv(s.serving, s.writing)
    ensures CachePutInv(NextServing(ttl, s, a), NextWriting(s, a))
  {
  }

  lemma StepKeepsReplyPuts(ttl: Ttls, s: State, a: Action)
    requires OrderInv(|s.past|, s.writing) && RecordInv(s.writing) && PutInv(s.serving, s.writing)
    requires RepliesInv(s.serving.replies, |s.past|, s.now)
    ensures ReplyPutInv(NextServing(ttl, s, a), NextWriting(s, a))
  {
    var v, v', w, w' := s.serving, NextServing(ttl, s, a), s.writing, NextWriting(s, a);
    forall k, c | 0 <= k < |v'.replies| && c in w'.dropped && c in w'.commits ensures PutLate(w', c, v'.replies[k]) {
      if k < |v.replies| && c in w.dropped {
        assert v'.replies[k] == v.replies[k] && PutLate(w, c, v.replies[k]);
      }
    }
  }

  ghost predicate ReaderInv(ttl: Ttls, s: State) {
    && ClockInv(s) && ServingInv(ttl, s.past, s.serving) && RepliesInv(s.serving.replies, |s.past|, s.now)
    && ClientsInv(ttl, s.serving.replies, |s.past|, s.now, s.clients)
  }

  ghost predicate WriterInv(s: State) {
    && ClockInv(s) && HeadsInv(s) && OrderInv(|s.past|, s.writing) && AwaitInv(s.writing)
    && RecordInv(s.writing) && HistoryInv(s.past, s.writing)
    && RepliesInv(s.serving.replies, |s.past|, s.now) && PutInv(s.serving, s.writing)
  }

  ghost predicate Inv(ttl: Ttls, s: State) {
    ReaderInv(ttl, s) && WriterInv(s)
  }

  lemma StepKeepsClock(ttl: Ttls, s: State, a: Action)
    requires ClockInv(s)
    ensures ClockInv(Step(ttl, s, a))
  {
  }

  lemma StepKeepsReaders(ttl: Ttls, s: State, a: Action)
    requires ReaderInv(ttl, s)
    ensures ReaderInv(ttl, Step(ttl, s, a))
  {
    StepKeepsClock(ttl, s, a);
    StepKeepsServing(ttl, s, a);
    StepKeepsReplies(ttl, s, a);
    StepKeepsClients(ttl, s, a);
  }

  lemma StepKeepsWriters(ttl: Ttls, s: State, a: Action)
    requires WriterInv(s)
    ensures WriterInv(Step(ttl, s, a))
  {
    StepKeepsClock(ttl, s, a);
    StepKeepsHeads(ttl, s, a);
    StepKeepsOrder(s, a);
    StepKeepsAwaits(s, a);
    StepKeepsRecords(s, a);
    StepKeepsHistory(ttl, s, a);
    StepKeepsReplies(ttl, s, a);
    StepKeepsCachePuts(ttl, s, a);
    StepKeepsReplyPuts(ttl, s, a);
  }

  lemma StepKeepsInv(ttl: Ttls, s: State, a: Action)
    requires Inv(ttl, s)
    ensures Inv(ttl, Step(ttl, s, a))
  {
    StepKeepsReaders(ttl, s, a);
    StepKeepsWriters(ttl, s, a);
  }

  lemma {:induction false} EveryRunKeepsInv(ttl: Ttls, acts: seq<Action>)
    ensures Inv(ttl, Run(ttl, acts))
  {
    if acts != [] {
      EveryRunKeepsInv(ttl, acts[..|acts| - 1]);
      StepKeepsInv(ttl, Run(ttl, acts[..|acts| - 1]), acts[|acts| - 1]);
    }
  }

  // ---- the bounds ------------------------------------------------------------

  // Before the given moment the store served row for uri, at a time within bounds.
  ghost predicate ServedWithin(past: seq<Moment>, made: nat, uri: string, row: Head, from: int, to: int) {
    exists k: nat :: k < made && WasHead(past, k, uri, row) && from <= past[k].now <= to
  }

  // Over every interleaving, a server response at time t carries what the store
  // served before the response, no earlier than t minus the ttl minus the read-to-put
  // delay of the reader that fetched it.
  lemma ServerStalenessBound(ttl: Ttls, acts: seq<Action>, k: nat)
    requires k < |Run(ttl, acts).serving.replies|
    ensures var s, r := Run(ttl, acts), Run(ttl, acts).serving.replies[k];
      && r.made <= |s.past|
      && ServedWithin(s.past, r.made, r.uri, r.row, r.time - ttl.Server() - r.delay, r.time)
  {
    EveryRunKeepsInv(ttl, acts);
    var s := Run(ttl, acts);
    assert GoodReply(ttl, s.past, s.serving.replies[k]);
  }

  // The time a put takes since its reader read the store.
  function PutDelay(s: State, a: Action): int {
    if a.PutAndReply? && a.id in s.serving.readers && s.serving.readers[a.id].Holding? && s.serving.readers[a.id].read < |s.past| then
      s.now - s.past[s.serving.readers[a.id].read].now
    else 0
  }

  ghost predicate DelaysWithin(v: Serving, d: int) {
    && (forall u :: u in v.cache ==> v.cache[u].delay <= d)
    && (forall k :: 0 <= k < |v.replies| ==> v.replies[k].delay <= d)
  }

  lemma {:induction false} DelaysStayWithin(ttl: Ttls, acts: seq<Action>, d: nat)
    requires forall k :: 0 <= k < |acts| ==> PutDelay(Run(ttl, acts[..k]), acts[k]) <= d
    ensures DelaysWithin(Run(ttl, acts).serving, d)
  {
    if acts != [] {
      var n := |acts| - 1;
      var init := acts[..n];
      assert forall k :: 0 <= k < n ==> init[..k] == acts[..k];
      DelaysStayWithin(ttl, init, d);
      StepKeepsDelays(ttl, Run(ttl, init), acts[n], d);
    }
  }

  lemma StepKeepsDelays(ttl: Ttls, s: State, a: Action, d: nat)
    requires DelaysWithin(s.serving, d) && PutDelay(s, a) <= d
    ensures DelaysWithin(NextServing(ttl, s, a), d)
  {
  }

  // If no reader of a run takes longer than d from its store read to its put, no
  // response of the run is staler than the ttl plus d.
  lemma SlowestReaderBoundsStaleness(ttl: Ttls, acts: seq<Action>, d: nat, k: nat)
    requires forall i :: 0 <= i < |acts| ==> PutDelay(Run(ttl, acts[..i]), acts[i]) <= d
    requires k < |Run(ttl, acts).serving.replies|
    ensures var s, r := Run(ttl, acts), Run(ttl, acts).serving.replies[k];
      ServedWithin(s.past, r.made, r.uri, r.row, r.time - ttl.Server() - d, r.time)
  {
    DelaysStayWithin(ttl, acts, d);
    ServerStalenessBound(ttl, acts, k);
    var s := Run(ttl, acts);
    var r := s.serving.replies[k];
    var j: nat :| j < r.made && WasHead(s.past, j, r.uri, r.row) && r.time - ttl.Server() - r.delay <= s.past[j].now <= r.time;
  }

  // A client response adds the client's ttl and the duration of its call.
  lemma ClientStalenessBound(ttl: Ttls, acts: seq<Action>, k: nat)
    requires k < |Run(ttl, acts).clients.replies|
    ensures var s, c := Run(ttl, acts), Run(ttl, acts).clients.replies[k];
      var r := c.got.reply;
      ServedWithin(s.past, c.made, r.uri, r.row, c.time - ttl.client - c.got.rpc - ttl.Server() - r.delay, c.time)
  {
    EveryRunKeepsInv(ttl, acts);
    var s := Run(ttl, acts);
    var c := s.clients.replies[k];
    var r := c.got.reply;
    assert GotWithin(s.serving.replies, c.got, c.time - ttl.client - c.got.rpc, c.made, c.time);
    var i :| 0 <= i < |s.serving.replies| && s.serving.replies[i] == r;
    ServerStalenessBound(ttl, acts, i);
    var j: nat :| j < r.made && WasHead(s.past, j, r.uri, r.row) && r.time - ttl.Server() - r.delay <= s.past[j].now <= r.time;
  }

  // An entry that is not what the store serves now.
  ghost predicate StaleEntry(s: State, uri: string) {
    uri in s.serving.cache && !(uri in s.heads && s.serving.cache[uri].row == s.heads[uri])
  }

  // Once the last commit's invalidate has run, a stale entry is the work of a reader
  // that read before that commit and put after its invalidate, whatever other writers of
  // the uri are still at work.
  lemma StaleEntryNeedsASlowReader(ttl: Ttls, acts: seq<Action>, uri: string)
    requires var s := Run(ttl, acts);
      StaleEntry(s, uri) && (uri in s.writing.lastCommit ==> s.writing.lastCommit[uri] in s.writing.dropped)
    ensures var s := Run(ttl, acts);
      && uri in s.writing.lastCommit
      && var e, commit := s.serving.cache[uri], s.writing.lastCommit[uri];
         e.read < commit < s.writing.dropped[commit] < e.put
  {
    EveryRunKeepsInv(ttl, acts);
    var s := Run(ttl, acts);
    var e := s.serving.cache[uri];
    assert GoodEntry(ttl, s.past, uri, e);
    assert uri in s.past[e.read].heads;
    assert uri in s.writing.lastCommit;
    assert e.read < s.writing.lastCommit[uri] || WasHead(s.past, e.read, uri, s.heads[uri]);
  }

  // The invalidate has run in particular when no writer of the uri is at work.
  lemma IdleUriIsInvalidated(ttl: Ttls, acts: seq<Action>, uri: string)
    requires var w := Run(ttl, acts).writing;
      uri in w.lastCommit && forall id :: id in w.writers ==> w.writers[id].uri != uri
    ensures var w := Run(ttl, acts).writing; w.lastCommit[uri] in w.dropped
  {
    EveryRunKeepsInv(ttl, acts);
    var w := Run(ttl, acts).writing;
    assert !Awaited(w, Writer(uri, w.lastCommit[uri]));
  }

  // Read before the commit and put after its invalidate.
  predicate SlowlyRead(w: Writing, c: nat, read: nat, put: nat)
    requires c in w.dropped
  {
    read < c < w.dropped[c] < put
  }

  // After the invalidate of any commit, a response to its uri was put after that
  // invalidate, and carries that commit's row or a later one unless its reader read
  // before the commit.
  lemma ResponsesAfterInvalidate(ttl: Ttls, acts: seq<Action>, c: nat, k: nat)
    requires var s := Run(ttl, acts);
      && c in s.writing.dropped && c in s.writing.commits && k < |s.serving.replies|
      && s.serving.replies[k].uri == s.writing.commits[c].uri && s.writing.dropped[c] < s.serving.replies[k].made
    ensures var s, r := Run(ttl, acts), Run(ttl, acts).serving.replies[k];
      && s.writing.dropped[c] < r.put
      && (SlowlyRead(s.writing, c, r.read, r.put) || CommittedBetween(s.writing, c, r.read, r.uri, r.row))
      && (SlowlyRead(s.writing, c, r.read, r.put) <==> r.read < c)
  {
    EveryRunKeepsInv(ttl, acts);
    var s, r := Run(ttl, acts), Run(ttl, acts).serving.replies[k];
    assert GoodReply(ttl, s.past, r) && PutLate(s.writing, c, r);
    if c <= r.read {
      assert HeadSince(s.writing, c, r.read, s.past[r.read].heads);
    }
  }

  // The same of what is cached after the invalidate of a commit: what survives it was
  // put after it.
  lemma SurvivorsOfInvalidate(ttl: Ttls, acts: seq<Action>, c: nat)
    requires var s := Run(ttl, acts);
      c in s.writing.dropped && c in s.writing.commits && s.writing.commits[c].uri in s.serving.cache
    ensures var s, u := Run(ttl, acts), Run(ttl, acts).writing.commits[c].uri;
      var e := s.serving.cache[u];
      && s.writing.dropped[c] < e.put
      && (SlowlyRead(s.writing, c, e.read, e.put) || CommittedBetween(s.writing, c, e.read, u, e.row))
      && (SlowlyRead(s.writing, c, e.read, e.put) <==> e.read < c)
  {
    EveryRunKeepsInv(ttl, acts);
    var s, u := Run(ttl, acts), Run(ttl, acts).writing.commits[c].uri;
    var e := s.serving.cache[u];
    assert GoodEntry(ttl, s.past, u, e);
    if c <= e.read {
      assert HeadSince(s.writing, c, e.read, s.past[e.read].heads);
    }
  }
}
