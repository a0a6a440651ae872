// Runs that show how stale responses really get: a reader that is overtaken between its
// store read and its cache put (internal/server/server.go, cache.go,
// adapters/python/promptnet/client.py).
module SlowReaders {
  import opened Staleness

  // A reader reads the first row, and two commits and both invalidates go by.
  function Overtaking(first: Head, second: Head): seq<Action> {
    [Commit(0, "u", first), Lookup(1, "u"), ReadStore(1), Commit(2, "u", second), Invalidate(0), Invalidate(2)]
  }

  // After d it puts, and one ttl passes.
  function Parking(ttl: Ttls, d: nat, first: Head, second: Head): seq<Action> {
    Overtaking(first, second) + [Tick(d), PutAndReply(1), Tick(ttl.Server())]
  }

  // The entry is hit at the last moment of its life.
  function SlowReader(ttl: Ttls, d: nat, first: Head, second: Head): seq<Action> {
    Parking(ttl, d, first, second) + [Lookup(3, "u")]
  }

  lemma OneStepLater(ttl: Ttls, acts: seq<Action>, a: Action)
    ensures Run(ttl, acts + [a]) == Step(ttl, Run(ttl, acts), a)
  {
  }

  lemma ThreeStepsLater(ttl: Ttls, acts: seq<Action>, x: Action, y: Action, z: Action)
    ensures Run(ttl, acts + [x, y, z]) == Step(ttl, Step(ttl, Step(ttl, Run(ttl, acts), x), y), z)
  {
    OneStepLater(ttl, acts, x);
    OneStepLater(ttl, acts + [x], y);
    OneStepLater(ttl, acts + [x] + [y], z);
    assert acts + [x, y, z] == acts + [x] + [y] + [z];
  }

  lemma SixStepsLater(ttl: Ttls, acts: seq<Action>, u: Action, v: Action, w: Action, x: Action, y: Action, z: Action)
    ensures Run(ttl, acts + [u, v, w, x, y, z])
      == Step(ttl, Step(ttl, Step(ttl, Step(ttl, Step(ttl, Step(ttl, Run(ttl, acts), u), v), w), x), y), z)
  {
    ThreeStepsLater(ttl, acts, u, v, w);
    ThreeStepsLater(ttl, acts + [u, v, w], x, y, z);
    assert acts + [u, v, w, x, y, z] == acts + [u, v, w] + [x, y, z];
  }

  // Nothing cached, nobody answered, no client.
  function Quiet(now: int, past: seq<Moment>, heads: map<string, Head>, readers: map<nat, Reader>, w: Writing): State {
    State(now, heads, past, Serving(map[], readers, []), w, INIT.clients)
  }

  lemma FirstCommit(ttl: Ttls, row: Head)
    ensures Step(ttl, INIT, Commit(0, "u", row))
      == Quiet(0, [Moment(0, map[]), Moment(0, map["u" := row])], map["u" := row], map[],
               Writing(map[0 := Writer("u", 1)], map[1 := Committed("u", row)], map["u" := 1], map[]))
  {
  }

  lemma FirstRead(ttl: Ttls, s: State, row: Head)
    requires s == Quiet(0, s.past, map["u" := row], map[], s.writing) && s.past != []
    ensures var m := Moment(0, s.heads);
      Step(ttl, Step(ttl, s, Lookup(1, "u")), ReadStore(1))
        == Quiet(0, s.past + [m, m], s.heads, map[1 := Holding("u", row, |s.past|)], s.writing)
  {
    var s1 := Step(ttl, s, Lookup(1, "u"));
    assert s1 == Quiet(0, s.past + [Moment(0, s.heads)], s.heads, map[1 := Missed("u")], s.writing);
  }

  // Two writers of u between commit and invalidate.
  function BothCommitted(first: Head, second: Head): Writing {
    Writing(map[0 := Writer("u", 1), 2 := Writer("u", 4)], map[1 := Committed("u", first), 4 := Committed("u", second)],
            map["u" := 4], map[])
  }

  lemma SecondCommit(ttl: Ttls, s: State, first: Head, row: Head)
    requires s == Quiet(0, s.past, s.heads, s.serving.readers,
                        Writing(map[0 := Writer("u", 1)], map[1 := Committed("u", first)], map["u" := 1], map[]))
    requires s.heads.Keys == {"u"} && |s.past| == 4
    ensures Step(ttl, s, Commit(2, "u", row))
      == Quiet(0, s.past + [Moment(0, map["u" := row])], map["u" := row], s.serving.readers, BothCommitted(first, row))
  {
    assert s.heads["u" := row] == map["u" := row];
  }

  lemma BothInvalidates(ttl: Ttls, s: State, first: Head, second: Head)
    requires s == Quiet(0, s.past, s.heads, s.serving.readers, BothCommitted(first, second)) && |s.past| == 5
    ensures var m := Moment(0, s.heads);
      Step(ttl, Step(ttl, s, Invalidate(0)), Invalidate(2))
        == Quiet(0, s.past + [m, m], s.heads, s.serving.readers,
                 Writing(map[], BothCommitted(first, second).commits, map["u" := 4], map[1 := 5, 4 := 6]))
  {
    var m := Moment(0, s.heads);
    var s1 := Step(ttl, s, Invalidate(0));
    assert s1 == Quiet(0, s.past + [m], s.heads, s.serving.readers,
                       Writing(map[2 := Writer("u", 4)], BothCommitted(first, second).commits, map["u" := 4], map[1 := 5]));
  }

  // The reader of the first row, with the second one served and no writer left.
  function Overtaken(first: Head, second: Head): State {
    var m0, m1 := Moment(0, map["u" := first]), Moment(0, map["u" := second]);
    Quiet(0, [Moment(0, map[]), m0, m0, m0, m1, m1, m1], map["u" := second], map[1 := Holding("u", first, 2)],
          Writing(map[], BothCommitted(first, second).commits, map["u" := 4], map[1 := 5, 4 := 6]))
  }

  lemma ReaderIsOvertaken(ttl: Ttls, first: Head, second: Head)
    ensures
      var s1 := Step(ttl, INIT, Commit(0, "u", first));
      var s3 := Step(ttl, Step(ttl, s1, Lookup(1, "u")), ReadStore(1));
      Step(ttl, Step(ttl, Step(ttl, s3, Commit(2, "u", second)), Invalidate(0)), Invalidate(2)) == Overtaken(first, second)
  {
    var m0, m1 := Moment(0, map["u" := first]), Moment(0, map["u" := second]);
    FirstCommit(ttl, first);
    var s1 := Step(ttl, INIT, Commit(0, "u", first));
    FirstRead(ttl, s1, first);
    var s3 := Step(ttl, Step(ttl, s1, Lookup(1, "u")), ReadStore(1));
    SecondCommit(ttl, s3, first, second);
    BothInvalidates(ttl, Step(ttl, s3, Commit(2, "u", second)), first, second);
    assert [Moment(0, map[]), m0] + [m0, m0] + [m1] + [m1, m1] == [Moment(0, map[]), m0, m0, m0, m1, m1, m1];
  }

  // A late put: the entry lives one ttl from now on, the response carries the old row.
  lemma LatePut(ttl: Ttls, s: State, row: Head)
    requires s.serving == Serving(map[], map[1 := Holding("u", row, 2)], []) && |s.past| == 8 && s.past[2].now == 0
    ensures var s' := Step(ttl, s, PutAndReply(1));
      && s' == s.(past := s.past + [Moment(s.now, s.heads)], serving := s'.serving)
      && s'.serving.replies == [Reply("u", row, s.now, 8, 2, s.now, 8)]
      && s'.serving.cache == Kept(ttl, row, s.now)
  {
  }

  // The entry of the late put, where there is a cache.
  function Kept(ttl: Ttls, row: Head, put: int): map<string, Entry> {
    if ttl.server > 0 then map["u" := Entry(row, put + ttl.server, 2, put, 8)] else map[]
  }

  lemma WaitingPasses(ttl: Ttls, s: State, d: nat)
    ensures Step(ttl, s, Tick(d)) == s.(now := s.now + d, past := s.past + [Moment(s.now + d, s.heads)])
  {
  }

  // One ttl after the late put: no writer is left, and the old row is still cached.
  ghost predicate Parked(ttl: Ttls, s: State, d: nat, first: Head, second: Head) {
    && s.now == ttl.Server() + d && s.heads == map["u" := second] && s.writing == Overtaken(first, second).writing
    && Overtaken(first, second).past <= s.past
    && (forall k :: 7 <= k < |s.past| ==> s.past[k].heads == s.heads)
    && s.serving.replies == [Reply("u", first, d, 8, 2, d, 8)] && s.serving.cache == Kept(ttl, first, d)
  }

  // The old row was answered one ttl and d after it was read, as response last.
  ghost predicate AnsweredLate(ttl: Ttls, s: State, d: nat, first: Head, second: Head, last: nat) {
    && s.heads == map["u" := second] && s.writing == Overtaken(first, second).writing
    && Overtaken(first, second).past <= s.past
    && (forall k :: 7 <= k < |s.past| ==> s.past[k].heads == s.heads)
    && |s.serving.replies| == last + 1 && s.serving.cache == Kept(ttl, first, d)
    && var r := s.serving.replies[last]; r.uri == "u" && r.row == first && r.time == ttl.Server() + d && r.delay == d
  }

  function LastReply(ttl: Ttls): nat {
    if ttl.server > 0 then 1 else 0
  }

  lemma ReaderIsParked(ttl: Ttls, d: nat, first: Head, second: Head)
    ensures var s7 := Step(ttl, Overtaken(first, second), Tick(d));
      var s := Step(ttl, Step(ttl, s7, PutAndReply(1)), Tick(ttl.Server()));
      Parked(ttl, s, d, first, second) && s.clients == INIT.clients
  {
    var s6 := Overtaken(first, second);
    WaitingPasses(ttl, s6, d);
    var s7 := Step(ttl, s6, Tick(d));
    LatePut(ttl, s7, first);
    WaitingPasses(ttl, Step(ttl, s7, PutAndReply(1)), ttl.Server());
  }

  // Exactly one ttl later the entry is still hit.
  lemma LastHit(ttl: Ttls, s: State, d: nat, first: Head, second: Head)
    requires Parked(ttl, s, d, first, second)
    ensures var s' := Step(ttl, s, Lookup(3, "u"));
      AnsweredLate(ttl, s', d, first, second, LastReply(ttl)) && s'.now == s.now && s'.clients == s.clients
  {
  }

  lemma SlowReaderIsOvertaken(ttl: Ttls, first: Head, second: Head)
    ensures Run(ttl, Overtaking(first, second)) == Overtaken(first, second)
  {
    SixStepsLater(ttl, [], Commit(0, "u", first), Lookup(1, "u"), ReadStore(1), Commit(2, "u", second),
                  Invalidate(0), Invalidate(2));
    assert [] + Overtaking(first, second) == Overtaking(first, second);
    ReaderIsOvertaken(ttl, first, second);
  }

  lemma SlowReaderParks(ttl: Ttls, d: nat, first: Head, second: Head)
    ensures var s := Run(ttl, Parking(ttl, d, first, second));
      Parked(ttl, s, d, first, second) && s.clients == INIT.clients
  {
    SlowReaderIsOvertaken(ttl, first, second);
    ThreeStepsLater(ttl, Overtaking(first, second), Tick(d), PutAndReply(1), Tick(ttl.Server()));
    ReaderIsParked(ttl, d, first, second);
  }

  // In such a run the first row was last served at time 0.
  lemma FirstRowIsOld(ttl: Ttls, s: State, d: nat, first: Head, second: Head, last: nat)
    requires first != second && AnsweredLate(ttl, s, d, first, second, last)
    ensures forall k: nat :: WasHead(s.past, k, "u", first) ==> s.past[k].now <= 0
  {
    forall k: nat | WasHead(s.past, k, "u", first) ensures s.past[k].now <= 0 {
      if k < 7 {
        assert s.past[k] == Overtaken(first, second).past[k];
      }
    }
  }

  // The server's bound cannot be improved: in this run the last response carries a row
  // that the store had stopped serving by the earliest time the bound allows. And with a
  // cache the entry stays stale although no writer is left.
  lemma BoundIsAttained(ttl: Ttls, d: nat, first: Head, second: Head)
    requires first != second
    ensures var s := Run(ttl, SlowReader(ttl, d, first, second));
      && s.serving.replies != [] && s.writing.writers == map[]
      && (var r := s.serving.replies[|s.serving.replies| - 1];
          && r.row == first && r.delay == d
          && forall k: nat :: WasHead(s.past, k, r.uri, r.row) ==> s.past[k].now <= r.time - ttl.Server() - r.delay)
      && (ttl.server > 0 ==> StaleEntry(s, "u"))
  {
    SlowReaderParks(ttl, d, first, second);
    OneStepLater(ttl, Parking(ttl, d, first, second), Lookup(3, "u"));
    LastHit(ttl, Run(ttl, Parking(ttl, d, first, second)), d, first, second);
    FirstRowIsOld(ttl, Run(ttl, SlowReader(ttl, d, first, second)), d, first, second, LastReply(ttl));
  }

  // ---- the client on top -----------------------------------------------------

  // One tick less than the client's ttl, the last moment its entry is still used.
  function Slack(ttl: Ttls): nat {
    if ttl.client > 0 then ttl.client - 1 else 0
  }

  // A client's call gets the late response, rpc later, and is asked again at the last
  // moment.
  function SlowClient(ttl: Ttls, d: nat, rpc: nat, first: Head, second: Head): seq<Action> {
    Parking(ttl, d, first, second)
    + [ClientGet(0, 0, "u"), Lookup(3, "u"), Tick(rpc), ClientReceive(0, LastReply(ttl)), Tick(Slack(ttl)), ClientGet(1, 0, "u")]
  }

  lemma ClientAsks(ttl: Ttls, s: State, d: nat, first: Head, second: Head)
    requires Parked(ttl, s, d, first, second) && s.clients == INIT.clients
    ensures var s' := Step(ttl, s, ClientGet(0, 0, "u"));
      Parked(ttl, s', d, first, second) && s'.clients == Clients(map[], map[0 := Ask(0, "u", s.now)], [])
  {
  }

  lemma TimePasses(ttl: Ttls, s: State, wait: nat, d: nat, first: Head, second: Head, last: nat)
    requires AnsweredLate(ttl, s, d, first, second, last)
    ensures var s' := Step(ttl, s, Tick(wait));
      && AnsweredLate(ttl, s', d, first, second, last)
      && s'.now == s.now + wait && s'.clients == s.clients && s'.serving == s.serving
  {
    WaitingPasses(ttl, s, wait);
  }

  lemma ClientReceives(ttl: Ttls, s: State, asked: int, d: nat, first: Head, second: Head, last: nat)
    requires AnsweredLate(ttl, s, d, first, second, last) && asked == ttl.Server() + d
    requires s.clients == Clients(map[], map[0 := Ask(0, "u", asked)], [])
    ensures var s' := Step(ttl, s, ClientReceive(0, last));
      var got := Got(s.serving.replies[last], s.now - asked);
      && AnsweredLate(ttl, s', d, first, second, last) && s'.now == s.now && s'.serving == s.serving
      && s'.clients == Clients(if ttl.client > 0 then map[(0, "u") := ClientEntry(got, s.now + ttl.client)] else map[],
                               map[], [ClientReply(got, s.now, |s.past|)])
  {
  }

  lemma ClientHits(ttl: Ttls, s: State, got: Got, made: nat, d: nat, first: Head, second: Head, last: nat)
    requires AnsweredLate(ttl, s, d, first, second, last)
    requires s.clients == Clients(
      if ttl.client > 0 then map[(0, "u") := ClientEntry(got, s.now - Slack(ttl) + ttl.client)] else map[],
      map[], [ClientReply(got, s.now - Slack(ttl), made)])
    ensures var s' := Step(ttl, s, ClientGet(1, 0, "u"));
      && AnsweredLate(ttl, s', d, first, second, last) && s'.serving == s.serving && s'.clients.replies != []
      && var c := s'.clients.replies[|s'.clients.replies| - 1]; c.got == got && c.time == s.now
  {
  }

  // Where the client's run ends.
  ghost predicate ClientEndsLate(ttl: Ttls, s: State, d: nat, rpc: nat, first: Head, second: Head) {
    && AnsweredLate(ttl, s, d, first, second, LastReply(ttl)) && s.clients.replies != []
    && var c := s.clients.replies[|s.clients.replies| - 1];
       c.got == Got(s.serving.replies[LastReply(ttl)], rpc) && c.time == ttl.Server() + d + rpc + Slack(ttl)
  }

  // What the client holds in the end, from the state in which the late response was given.
  lemma ClientAnswersLate(ttl: Ttls, s: State, d: nat, rpc: nat, first: Head, second: Head)
    requires AnsweredLate(ttl, s, d, first, second, LastReply(ttl)) && s.now == ttl.Server() + d
    requires s.clients == Clients(map[], map[0 := Ask(0, "u", s.now)], [])
    ensures var s2 := Step(ttl, Step(ttl, s, Tick(rpc)), ClientReceive(0, LastReply(ttl)));
      var s' := Step(ttl, Step(ttl, s2, Tick(Slack(ttl))), ClientGet(1, 0, "u"));
      ClientEndsLate(ttl, s', d, rpc, first, second)
  {
    var last := LastReply(ttl);
    TimePasses(ttl, s, rpc, d, first, second, last);
    var s1 := Step(ttl, s, Tick(rpc));
    ClientReceives(ttl, s1, s.now, d, first, second, last);
    var s2 := Step(ttl, s1, ClientReceive(0, last));
    TimePasses(ttl, s2, Slack(ttl), d, first, second, last);
    ClientHits(ttl, Step(ttl, s2, Tick(Slack(ttl))), Got(s.serving.replies[last], rpc), |s1.past|, d, first, second, last);
  }

  lemma ClientIsAnswered(ttl: Ttls, s: State, d: nat, first: Head, second: Head)
    requires Parked(ttl, s, d, first, second) && s.clients == INIT.clients
    ensures var s' := Step(ttl, Step(ttl, s, ClientGet(0, 0, "u")), Lookup(3, "u"));
      && AnsweredLate(ttl, s', d, first, second, LastReply(ttl)) && s'.now == ttl.Server() + d
      && s'.clients == Clients(map[], map[0 := Ask(0, "u", s'.now)], [])
  {
    ClientAsks(ttl, s, d, first, second);
    LastHit(ttl, Step(ttl, s, ClientGet(0, 0, "u")), d, first, second);
  }

  lemma SlowClientEndsLate(ttl: Ttls, d: nat, rpc: nat, first: Head, second: Head)
    ensures ClientEndsLate(ttl, Run(ttl, SlowClient(ttl, d, rpc, first, second)), d, rpc, first, second)
  {
    var start := Parking(ttl, d, first, second);
    SlowReaderParks(ttl, d, first, second);
    ClientIsAnswered(ttl, Run(ttl, start), d, first, second);
    ClientAnswersLate(ttl, Step(ttl, Step(ttl, Run(ttl, start), ClientGet(0, 0, "u")), Lookup(3, "u")), d, rpc, first, second);
    SixStepsLater(ttl, start, ClientGet(0, 0, "u"), Lookup(3, "u"), Tick(rpc), ClientReceive(0, LastReply(ttl)),
                  Tick(Slack(ttl)), ClientGet(1, 0, "u"));
  }

  // The client's bound cannot be improved by more than the tick that its strict expiry
  // takes off, and not at all without a client cache.
  lemma ClientBoundIsAttained(ttl: Ttls, d: nat, rpc: nat, first: Head, second: Head)
    requires first != second
    ensures var s := Run(ttl, SlowClient(ttl, d, rpc, first, second));
      && s.clients.replies != []
      && var c := s.clients.replies[|s.clients.replies| - 1];
         var r, bound := c.got.reply, c.time - ttl.client - c.got.rpc - ttl.Server() - c.got.reply.delay;
         && r.row == first && r.delay == d && c.got.rpc == rpc
         && forall k: nat :: WasHead(s.past, k, r.uri, r.row) ==>
              s.past[k].now <= bound + if ttl.client > 0 then 1 else 0
  {
    SlowClientEndsLate(ttl, d, rpc, first, second);
    FirstRowIsOld(ttl, Run(ttl, SlowClient(ttl, d, rpc, first, second)), d, first, second, LastReply(ttl));
  }
}
