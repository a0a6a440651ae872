// The request handlers as atomic steps over store, cache and event log, with and
// without the server-side cache (internal/server/server.go and cache.go).
module Serving {
  import opened Outcomes
  import opened Placeholders
  import opened Encodings
  import opened CommitGraph

  datatype Request =
    | PublishPrompt(uri: string, template: string, slots: seq<string>, branch: string, message: string)
    | GetPrompt(uri: string, ref: string)
    | CreateBranch(uri: string, name: string, from: string)
    | MergeBranch(uri: string, into: string, from: string, message: string)
    | SetBranch(uri: string, branch: string, commitHash: string)

  datatype Response =
    | Published(versionHash: string)
    | Served(uri: string, template: string, slots: seq<string>, versionHash: string, commitHash: string)
    | BranchCreated(commitHash: string)
    | Merged(commitHash: string)
    | BranchSet(versionHash: string)
    | InvalidArgument
    | NoSuchThing
    | Internal
    | DataLoss

  datatype Event = Event(uri: string, versionHash: string, classification: string)

  datatype Entry = Entry(resp: Response, expiry: int)

  // verdict is the semantic classification of an edit, absent without an embedder;
  // ttl is absent when the cache is disabled.
  datatype Config = Config(
    sha: string -> string,
    ttl: Option<int>,
    verdict: Option<(string, string) -> string>,
    notify: bool)

  datatype State = State(db: Db<Content>, cache: map<string, Entry>, events: seq<Event>)

  // A request with the caller's scope and the time at which it is handled.
  datatype Call = Call(req: Request, author: string, now: int)

  function BranchOr(b: string): string {
    if b == "" then MAIN else b
  }

  function Classify(cfg: Config, before: string, after: string): string {
    if cfg.verdict.None? || before == "" then "" else cfg.verdict.value(before, after)
  }

  function Dropped(cfg: Config, cache: map<string, Entry>, uri: string): map<string, Entry> {
    if cfg.ttl.Some? then cache - {uri} else cache
  }

  function Notified(cfg: Config, events: seq<Event>, e: Event): seq<Event> {
    if cfg.notify then events + [e] else events
  }

  function HeadResponse(uri: string, row: Row<Content>): Response {
    Served(uri, row.content.template, row.content.slots, row.versionHash, "")
  }

  // ---- handlers --------------------------------------------------------------

  ghost function HandlePublish(cfg: Config, s: State, uri: string, content: Content, branch: string, author: string, message: string)
    : (State, Response)
  {
    var hash := VersionHash(cfg.sha, content);
    var onMain := branch == MAIN;
    if !Acceptable(uri, content.template, content.slots) then (s, InvalidArgument)
    else if onMain && uri in s.db.prompts && s.db.prompts[uri].versionHash == hash then (s, Published(hash))
    else
      var db := CommitOp(cfg.sha, s.db, uri, branch, content, author, message);
      if !onMain then (s.(db := db), Published(hash))
      else
        var verdict := if uri in s.db.prompts then Classify(cfg, s.db.prompts[uri].content.template, content.template) else "new";
        (State(db, Dropped(cfg, s.cache, uri), Notified(cfg, s.events, Event(uri, hash, verdict))), Published(hash))
  }

  ghost function HandleGetByRef(s: State, uri: string, ref: string): Response {
    var r := Resolve(s.db, uri, ref);
    if !r.Done? then NoSuchThing
    else
      var (h, c) := r.value;
      if !Acceptable(uri, c.content.template, c.content.slots) then DataLoss
      else Served(uri, c.content.template, c.content.slots, c.versionHash, h)
  }

  function CacheHit(cfg: Config, cache: map<string, Entry>, uri: string, now: int): bool {
    cfg.ttl.Some? && uri in cache && now <= cache[uri].expiry
  }

  ghost function HandleGetHead(cfg: Config, s: State, uri: string, now: int): (State, Response) {
    if CacheHit(cfg, s.cache, uri, now) then (s, s.cache[uri].resp)
    else if uri !in s.db.prompts then (s, NoSuchThing)
    else
      var row := s.db.prompts[uri];
      if !Acceptable(uri, row.content.template, row.content.slots) then (s, DataLoss)
      else
        var resp := HeadResponse(uri, row);
        (if cfg.ttl.Some? then s.(cache := s.cache[uri := Entry(resp, now + cfg.ttl.value)]) else s, resp)
  }

  function HandleCreateBranch(s: State, uri: string, name: string, from: string): (State, Response) {
    if name == "" then (s, InvalidArgument)
    else
      match BranchOp(s.db, uri, name, from)
      case Done(db) => (s.(db := db), BranchCreated(s.db.refs[(uri, from)]))
      case BranchNotFound => (s, NoSuchThing)
      case Conflict => (s, Internal)
      case NotFound => (s, Internal)
  }

  function HandleMerge(cfg: Config, s: State, uri: string, into: string, from: string, author: string, message: string): (State, Response) {
    match MergeCommit(cfg.sha, s.db, uri, into, from, author, message)
    case Done(c) =>
      (s.(db := CommitTx(cfg.sha, s.db, into, c), cache := if into == MAIN then Dropped(cfg, s.cache, uri) else s.cache),
       Merged(CommitHash(cfg.sha, c)))
    case BranchNotFound => (s, NoSuchThing)
    case NotFound => (s, Internal)
    case Conflict => (s, Internal)
  }

  function HandleSetBranch(cfg: Config, s: State, uri: string, branch: string, hash: string): (State, Response) {
    if hash == "" then (s, InvalidArgument)
    else
      var r := CommitOf(s.db, uri, hash);
      if !r.Done? then (s, NoSuchThing)
      else
        var row := Row(r.value.content, r.value.versionHash);
        var db := SetTx(s.db, uri, branch, hash, row);
        if branch != MAIN then (s.(db := db), BranchSet(row.versionHash))
        else
          var before := if uri in s.db.prompts then s.db.prompts[uri].content.template else "";
          var verdict := Classify(cfg, before, row.content.template);
          (State(db, Dropped(cfg, s.cache, uri), Notified(cfg, s.events, Event(uri, row.versionHash, verdict))),
           BranchSet(row.versionHash))
  }

  ghost function Handle(cfg: Config, s: State, call: Call): (State, Response) {
    match call.req
    case PublishPrompt(uri, template, slots, branch, message) =>
      HandlePublish(cfg, s, uri, Content(template, slots), BranchOr(branch), call.author, message)
    case GetPrompt(uri, ref) =>
      if ref != "" then (s, HandleGetByRef(s, uri, ref)) else HandleGetHead(cfg, s, uri, call.now)
    case CreateBranch(uri, name, from) => HandleCreateBranch(s, uri, name, BranchOr(from))
    case MergeBranch(uri, into, from, message) => HandleMerge(cfg, s, uri, BranchOr(into), from, call.author, message)
    case SetBranch(uri, branch, hash) => HandleSetBranch(cfg, s, uri, BranchOr(branch), hash)
  }

  const FRESH: State := State(Db(map[], map[], map[]), map[], [])

  ghost function Serve(cfg: Config, calls: seq<Call>): (State, seq<Response>) {
    if calls == [] then (FRESH, [])
    else
      var before := Serve(cfg, calls[..|calls| - 1]);
      var (s, resp) := Handle(cfg, before.0, calls[|calls| - 1]);
      (s, before.1 + [resp])
  }

  lemma ServeOneMore(cfg: Config, calls: seq<Call>, call: Call)
    ensures Serve(cfg, calls + [call]).0 == Handle(cfg, Serve(cfg, calls).0, call).0
  {
    assert (calls + [call])[..|calls|] == calls;
  }

  function PublishOf(uri: string, c: Content, branch: string, at: int): Call {
    Call(PublishPrompt(uri, c.template, c.slots, branch, ""), "", at)
  }

  ghost predicate Validates(c: Content) {
    !Blank(c.template) && Matched(c.template, c.slots)
  }

  // ---- what every request keeps ----------------------------------------------

  // Everything stored would validate where it can be served.
  ghost predicate Servable(db: Db<Content>) {
    && (forall h :: h in db.commits ==>
          Acceptable(db.commits[h].uri, db.commits[h].content.template, db.commits[h].content.slots))
    && (forall r :: r in db.refs ==> !Blank(r.0))
    && (forall u :: u in db.prompts ==> Acceptable(u, db.prompts[u].content.template, db.prompts[u].content.slots))
  }

  // Every cached response is what the store would answer now, expired or not.
  ghost predicate Coherent(s: State) {
    forall u :: u in s.cache ==> u in s.db.prompts && s.cache[u].resp == HeadResponse(u, s.db.prompts[u])
  }

  lemma CommitTxKeepsServable(sha: string -> string, db: Db<Content>, branch: string, c: Commit<Content>)
    requires Servable(db) && Acceptable(c.uri, c.content.template, c.content.slots)
    ensures Servable(CommitTx(sha, db, branch, c))
  {
  }

  lemma PublishKeepsServable(cfg: Config, s: State, uri: string, content: Content, branch: string, author: string, message: string)
    requires Servable(s.db)
    ensures Servable(HandlePublish(cfg, s, uri, content, branch, author, message).0.db)
  {
  }

  lemma MergeKeepsServable(cfg: Config, s: State, uri: string, into: string, from: string, author: string, message: string)
    requires Servable(s.db)
    ensures Servable(HandleMerge(cfg, s, uri, into, from, author, message).0.db)
  {
    var r := MergeCommit(cfg.sha, s.db, uri, into, from, author, message);
    if r.Done? {
      assert !Blank((uri, from).0);
      CommitTxKeepsServable(cfg.sha, s.db, into, r.value);
    }
  }

  lemma CreateBranchKeepsServable(s: State, uri: string, name: string, from: string)
    requires Servable(s.db)
    ensures Servable(HandleCreateBranch(s, uri, name, from).0.db)
  {
  }

  lemma SetBranchKeepsServable(cfg: Config, s: State, uri: string, branch: string, hash: string)
    requires Servable(s.db)
    ensures Servable(HandleSetBranch(cfg, s, uri, branch, hash).0.db)
  {
  }

  lemma HandleKeepsServable(cfg: Config, s: State, call: Call)
    requires Servable(s.db)
    ensures Servable(Handle(cfg, s, call).0.db)
  {
    match call.req {
      case PublishPrompt(uri, template, slots, branch, message) =>
        PublishKeepsServable(cfg, s, uri, Content(template, slots), BranchOr(branch), call.author, message);
      case MergeBranch(uri, into, from, message) =>
        MergeKeepsServable(cfg, s, uri, BranchOr(into), from, call.author, message);
      case CreateBranch(uri, name, from) => CreateBranchKeepsServable(s, uri, name, BranchOr(from));
      case GetPrompt(uri, ref) =>
      case SetBranch(uri, branch, hash) => SetBranchKeepsServable(cfg, s, uri, BranchOr(branch), hash);
    }
  }

  lemma NeverDataLoss(cfg: Config, s: State, call: Call)
    requires Servable(s.db) && Coherent(s)
    ensures Handle(cfg, s, call).1 != DataLoss
  {
  }

  ghost predicate GoodGraph(db: Db<Content>) {
    Linked(db) && Acyclic(db.commits)
  }

  lemma PublishKeepsGraph(cfg: Config, s: State, uri: string, content: Content, branch: string, author: string, message: string)
    requires IsDigest(cfg.sha) && GoodGraph(s.db)
    ensures GoodGraph(HandlePublish(cfg, s, uri, content, branch, author, message).0.db)
  {
    CommitTxKeepsLinks(cfg.sha, s.db, branch, NewCommit(cfg.sha, s.db, uri, branch, content, author, message));
  }

  lemma MergeKeepsGraph(cfg: Config, s: State, uri: string, into: string, from: string, author: string, message: string)
    requires IsDigest(cfg.sha) && GoodGraph(s.db)
    ensures GoodGraph(HandleMerge(cfg, s, uri, into, from, author, message).0.db)
  {
    var r := MergeCommit(cfg.sha, s.db, uri, into, from, author, message);
    if r.Done? {
      CommitTxKeepsLinks(cfg.sha, s.db, into, r.value);
    }
  }

  lemma NewBranchKeepsGraph(db: Db<Content>, uri: string, name: string, from: string)
    requires GoodGraph(db)
    ensures var r := BranchOp(db, uri, name, from);
      r.Done? ==> GoodGraph(r.value) && (uri, name) in r.value.refs && r.value.refs[(uri, name)] == db.refs[(uri, from)]
  {
  }

  lemma NewBranchHandlerKeepsGraph(s: State, uri: string, name: string, from: string)
    requires GoodGraph(s.db)
    ensures GoodGraph(HandleCreateBranch(s, uri, name, from).0.db)
  {
    NewBranchKeepsGraph(s.db, uri, name, from);
  }

  lemma SetTxKeepsGraph(db: Db<Content>, uri: string, branch: string, hash: string, row: Row<Content>)
    requires GoodGraph(db) && hash in db.commits
    ensures GoodGraph(SetTx(db, uri, branch, hash, row))
  {
  }

  lemma SetBranchKeepsGraph(cfg: Config, s: State, uri: string, branch: string, hash: string)
    requires GoodGraph(s.db)
    ensures GoodGraph(HandleSetBranch(cfg, s, uri, branch, hash).0.db)
  {
    var r := CommitOf(s.db, uri, hash);
    if r.Done? {
      SetTxKeepsGraph(s.db, uri, branch, hash, Row(r.value.content, r.value.versionHash));
    }
  }

  // Every request keeps refs and parents linked and the graph acyclic.
  lemma HandleKeepsGraph(cfg: Config, s: State, call: Call)
    requires IsDigest(cfg.sha) && GoodGraph(s.db)
    ensures GoodGraph(Handle(cfg, s, call).0.db)
  {
    match call.req {
      case PublishPrompt(uri, template, slots, branch, message) =>
        PublishKeepsGraph(cfg, s, uri, Content(template, slots), BranchOr(branch), call.author, message);
      case MergeBranch(uri, into, from, message) =>
        MergeKeepsGraph(cfg, s, uri, BranchOr(into), from, call.author, message);
      case GetPrompt(_, _) =>
      case CreateBranch(uri, name, from) => NewBranchHandlerKeepsGraph(s, uri, name, BranchOr(from));
      case SetBranch(uri, branch, hash) => SetBranchKeepsGraph(cfg, s, uri, BranchOr(branch), hash);
    }
  }

  // So the log that a new branch is answered with exists in every run.
  lemma {:induction false} EveryServedGraphIsGood(cfg: Config, calls: seq<Call>)
    requires IsDigest(cfg.sha)
    ensures GoodGraph(Serve(cfg, calls).0.db)
  {
    if calls == [] {
      assert Ranked(FRESH.db.commits, map[]);
    } else {
      EveryServedGraphIsGood(cfg, calls[..|calls| - 1]);
      HandleKeepsGraph(cfg, Serve(cfg, calls[..|calls| - 1]).0, calls[|calls| - 1]);
    }
  }

  lemma DropKeepsCoherent(cfg: Config, s: State, db: Db<Content>, uri: string, events: seq<Event>)
    requires cfg.ttl.Some? && Coherent(s)
    requires forall u :: u != uri && u in s.db.prompts ==> u in db.prompts && db.prompts[u] == s.db.prompts[u]
    ensures Coherent(State(db, Dropped(cfg, s.cache, uri), events))
  {
  }

  lemma PublishKeepsCoherent(cfg: Config, s: State, uri: string, content: Content, branch: string, author: string, message: string)
    requires cfg.ttl.Some? && Coherent(s)
    ensures Coherent(HandlePublish(cfg, s, uri, content, branch, author, message).0)
  {
    var s' := HandlePublish(cfg, s, uri, content, branch, author, message).0;
    if s'.db.prompts != s.db.prompts {
      DropKeepsCoherent(cfg, s, s'.db, uri, s'.events);
    }
  }

  lemma MergeKeepsCoherent(cfg: Config, s: State, uri: string, into: string, from: string, author: string, message: string)
    requires cfg.ttl.Some? && Coherent(s)
    ensures Coherent(HandleMerge(cfg, s, uri, into, from, author, message).0)
  {
    var s' := HandleMerge(cfg, s, uri, into, from, author, message).0;
    if s'.db.prompts != s.db.prompts {
      DropKeepsCoherent(cfg, s, s'.db, uri, s'.events);
    }
  }

  lemma SetBranchKeepsCoherent(cfg: Config, s: State, uri: string, branch: string, hash: string)
    requires cfg.ttl.Some? && Coherent(s)
    ensures Coherent(HandleSetBranch(cfg, s, uri, branch, hash).0)
  {
    var s' := HandleSetBranch(cfg, s, uri, branch, hash).0;
    if s'.db.prompts != s.db.prompts {
      DropKeepsCoherent(cfg, s, s'.db, uri, s'.events);
    }
  }

  lemma HandleKeepsCoherent(cfg: Config, s: State, call: Call)
    requires cfg.ttl.Some? && Coherent(s)
    ensures Coherent(Handle(cfg, s, call).0)
  {
    match call.req {
      case PublishPrompt(uri, template, slots, branch, message) =>
        PublishKeepsCoherent(cfg, s, uri, Content(template, slots), BranchOr(branch), call.author, message);
      case GetPrompt(_, _) =>
      case CreateBranch(_, _, _) =>
      case MergeBranch(uri, into, from, message) =>
        MergeKeepsCoherent(cfg, s, uri, BranchOr(into), from, call.author, message);
      case SetBranch(uri, branch, hash) => SetBranchKeepsCoherent(cfg, s, uri, BranchOr(branch), hash);
    }
  }

  // Same response, tables and events; bare keeps no cache.
  ghost predicate SameBehaviour(cached: (State, Response), bare: (State, Response)) {
    && cached.1 == bare.1 && cached.0.db == bare.0.db && cached.0.events == bare.0.events && bare.0.cache == map[]
  }

  lemma HeadReadIsTransparent(cfg: Config, s: State, uri: string, now: int)
    requires Servable(s.db) && Coherent(s)
    ensures SameBehaviour(HandleGetHead(cfg, s, uri, now), HandleGetHead(cfg.(ttl := None), s.(cache := map[]), uri, now))
  {
  }

  lemma PinnedReadIsTransparent(s: State, uri: string, ref: string)
    ensures HandleGetByRef(s.(cache := map[]), uri, ref) == HandleGetByRef(s, uri, ref)
  {
  }

  lemma PublishIsTransparent(cfg: Config, s: State, uri: string, content: Content, branch: string, author: string, message: string)
    ensures SameBehaviour(HandlePublish(cfg, s, uri, content, branch, author, message),
                          HandlePublish(cfg.(ttl := None), s.(cache := map[]), uri, content, branch, author, message))
  {
  }

  lemma SetBranchIsTransparent(cfg: Config, s: State, uri: string, branch: string, hash: string)
    ensures SameBehaviour(HandleSetBranch(cfg, s, uri, branch, hash),
                          HandleSetBranch(cfg.(ttl := None), s.(cache := map[]), uri, branch, hash))
  {
  }

  lemma CreateBranchIsTransparent(s: State, uri: string, name: string, from: string)
    ensures SameBehaviour(HandleCreateBranch(s, uri, name, from), HandleCreateBranch(s.(cache := map[]), uri, name, from))
  {
  }

  lemma MergeIsTransparent(cfg: Config, s: State, uri: string, into: string, from: string, author: string, message: string)
    ensures SameBehaviour(HandleMerge(cfg, s, uri, into, from, author, message),
                          HandleMerge(cfg.(ttl := None), s.(cache := map[]), uri, into, from, author, message))
  {
  }

  // One request on a coherent cache: the cached server answers as the uncached one.
  lemma CacheIsTransparent(cfg: Config, s: State, call: Call)
    requires Servable(s.db) && Coherent(s)
    ensures SameBehaviour(Handle(cfg, s, call), Handle(cfg.(ttl := None), s.(cache := map[]), call))
  {
    match call.req {
      case PublishPrompt(uri, template, slots, branch, message) =>
        PublishIsTransparent(cfg, s, uri, Content(template, slots), BranchOr(branch), call.author, message);
      case GetPrompt(uri, ref) =>
        HeadReadIsTransparent(cfg, s, uri, call.now);
        PinnedReadIsTransparent(s, uri, ref);
      case CreateBranch(uri, name, from) => CreateBranchIsTransparent(s, uri, name, BranchOr(from));
      case MergeBranch(uri, into, from, message) =>
        MergeIsTransparent(cfg, s, uri, BranchOr(into), from, call.author, message);
      case SetBranch(uri, branch, hash) => SetBranchIsTransparent(cfg, s, uri, BranchOr(branch), hash);
    }
  }

  // Over every run of requests and every clock, the server with a cache of any ttl
  // gives the responses, the tables and the events of the server without one, and
  // never answers DataLoss.
  lemma {:induction false} CachedServerRefinesUncached(cfg: Config, calls: seq<Call>)
    ensures var cached, bare := Serve(cfg, calls), Serve(cfg.(ttl := None), calls);
      && cached.1 == bare.1 && DataLoss !in cached.1
      && cached.0.db == bare.0.db && cached.0.events == bare.0.events
      && bare.0.cache == map[] && Servable(cached.0.db) && Coherent(cached.0)
  {
    if calls != [] {
      var init, call := calls[..|calls| - 1], calls[|calls| - 1];
      CachedServerRefinesUncached(cfg, init);
      var s := Serve(cfg, init).0;
      assert Serve(cfg.(ttl := None), init).0 == s.(cache := map[]);
      HandleKeepsServable(cfg, s, call);
      NeverDataLoss(cfg, s, call);
      CacheIsTransparent(cfg, s, call);
      if cfg.ttl.Some? {
        HandleKeepsCoherent(cfg, s, call);
      }
    }
  }

  // ---- what subscribers know -------------------------------------------------

  function LastAnnounced(events: seq<Event>, uri: string): Option<string> {
    if events == [] then None
    else
      var e := events[|events| - 1];
      if e.uri == uri then Some(e.versionHash) else LastAnnounced(events[..|events| - 1], uri)
  }

  // The last event of every served uri carries the version it serves.
  ghost predicate InSync(s: State) {
    forall u :: u in s.db.prompts ==> LastAnnounced(s.events, u) == Some(s.db.prompts[u].versionHash)
  }

  // A merge into main of another version than the last one announced.
  predicate SilentMerge(cfg: Config, s: State, uri: string, into: string, from: string, author: string, message: string) {
    var r := MergeCommit(cfg.sha, s.db, uri, into, from, author, message);
    into == MAIN && r.Done? && LastAnnounced(s.events, uri) != Some(r.value.versionHash)
  }

  predicate IsSilent(cfg: Config, s: State, call: Call) {
    && call.req.MergeBranch?
    && SilentMerge(cfg, s, call.req.uri, BranchOr(call.req.into), call.req.from, call.author, call.req.message)
  }

  lemma PublishKeepsSync(cfg: Config, s: State, uri: string, content: Content, branch: string, author: string, message: string)
    requires cfg.notify && InSync(s)
    ensures InSync(HandlePublish(cfg, s, uri, content, branch, author, message).0)
  {
  }

  lemma SetBranchKeepsSync(cfg: Config, s: State, uri: string, branch: string, hash: string)
    requires cfg.notify && InSync(s)
    ensures InSync(HandleSetBranch(cfg, s, uri, branch, hash).0)
  {
  }

  lemma MergeKeepsSyncIff(cfg: Config, s: State, uri: string, into: string, from: string, author: string, message: string)
    requires InSync(s)
    ensures InSync(HandleMerge(cfg, s, uri, into, from, author, message).0) <==>
      !SilentMerge(cfg, s, uri, into, from, author, message)
  {
  }

  // A request keeps subscribers in step with the served versions exactly when it is
  // not a merge into main of an unannounced version: merges do not notify.
  lemma SubscribersInSyncIff(cfg: Config, s: State, call: Call)
    requires cfg.notify && InSync(s)
    ensures InSync(Handle(cfg, s, call).0) <==> !IsSilent(cfg, s, call)
  {
    match call.req {
      case PublishPrompt(uri, template, slots, branch, message) =>
        PublishKeepsSync(cfg, s, uri, Content(template, slots), BranchOr(branch), call.author, message);
      case GetPrompt(_, _) =>
      case CreateBranch(_, _, _) =>
      case MergeBranch(uri, into, from, message) =>
        MergeKeepsSyncIff(cfg, s, uri, BranchOr(into), from, call.author, message);
      case SetBranch(uri, branch, hash) => SetBranchKeepsSync(cfg, s, uri, BranchOr(branch), hash);
    }
  }

  // Publish c, branch off, publish d on the branch; then merge it into main.
  function BranchedEdit(c: Content, d: Content): seq<Call> {
    [PublishOf("u", c, "", 0), Call(CreateBranch("u", "dev", ""), "", 0), PublishOf("u", d, "dev", 0)]
  }

  const MERGE_DEV: Call := Call(MergeBranch("u", "", "dev", ""), "", 0)

  lemma ServeThree(cfg: Config, x: Call, y: Call, z: Call)
    ensures Serve(cfg, [x, y, z]).0 == Handle(cfg, Handle(cfg, Handle(cfg, FRESH, x).0, y).0, z).0
  {
    ServeOneMore(cfg, [], x);
    ServeOneMore(cfg, [x], y);
    ServeOneMore(cfg, [x, y], z);
    assert [] + [x] == [x] && [x] + [y] == [x, y] && [x, y] + [z] == [x, y, z];
  }

  lemma PublishedFirst(cfg: Config, c: Content)
    requires Validates(c)
    ensures var s, root := Handle(cfg, FRESH, PublishOf("u", c, "", 0)).0, NewCommit(cfg.sha, FRESH.db, "u", MAIN, c, "", "");
      var hash := CommitHash(cfg.sha, root);
      && s.db == Db(map[hash := root], map[("u", MAIN) := hash], map["u" := Row(c, VersionHash(cfg.sha, c))])
      && s.events == Notified(cfg, [], Event("u", VersionHash(cfg.sha, c), "new"))
  {
    assert !IsSpace("u"[0]);
  }

  // The edit waits on the branch, and main's version is the last one announced.
  lemma EditWaitsOnBranch(cfg: Config, c: Content, d: Content)
    requires IsDigest(cfg.sha) && CollisionFree(cfg.sha) && Validates(c) && Validates(d)
    ensures var s := Serve(cfg, BranchedEdit(c, d)).0;
      && ("u", MAIN) in s.db.refs && ("u", "dev") in s.db.refs && s.db.refs[("u", "dev")] in s.db.commits
      && s.db.commits[s.db.refs[("u", "dev")]].content == d
      && s.db.prompts == map["u" := Row(c, VersionHash(cfg.sha, c))]
      && s.events == Notified(cfg, [], Event("u", VersionHash(cfg.sha, c), "new"))
  {
    var calls := BranchedEdit(c, d);
    ServeThree(cfg, calls[0], calls[1], calls[2]);
    PublishedFirst(cfg, c);
    assert !IsSpace("u"[0]);
    var s1 := Handle(cfg, FRESH, calls[0]).0;
    var s2 := Handle(cfg, s1, calls[1]).0;
    var root := NewCommit(cfg.sha, FRESH.db, "u", MAIN, c, "", "");
    var edit := NewCommit(cfg.sha, s2.db, "u", "dev", d, "", "");
    assert edit.parent == CommitHash(cfg.sha, root);
    if CommitHash(cfg.sha, edit) == CommitHash(cfg.sha, root) {
      CommitInputDetermines(edit.versionHash, edit.parent, "", "", "", root.versionHash, "", "", "", "");
    }
  }

  // A run in which subscribers are left behind: the merge is silent, and afterwards the
  // served version is not the last one announced.
  lemma MergeGoesUnannounced(cfg: Config, c: Content, d: Content)
    requires IsDigest(cfg.sha) && CollisionFree(cfg.sha) && Validates(c) && Validates(d)
    requires HashInput(c.template, c.slots) != HashInput(d.template, d.slots)
    ensures IsSilent(cfg, Serve(cfg, BranchedEdit(c, d)).0, MERGE_DEV)
    ensures cfg.notify ==> InSync(Serve(cfg, BranchedEdit(c, d)).0) && !InSync(Serve(cfg, BranchedEdit(c, d) + [MERGE_DEV]).0)
  {
    EditWaitsOnBranch(cfg, c, d);
    var s := Serve(cfg, BranchedEdit(c, d)).0;
    assert LastAnnounced(s.events, "u") == if cfg.notify then Some(VersionHash(cfg.sha, c)) else None;
    if cfg.notify {
      ServeOneMore(cfg, BranchedEdit(c, d), MERGE_DEV);
      SubscribersInSyncIff(cfg, s, MERGE_DEV);
    }
  }

  lemma {:induction false} SubscribersInSyncOverRuns(cfg: Config, calls: seq<Call>)
    requires cfg.notify
    requires forall k :: 0 <= k < |calls| ==> !IsSilent(cfg, Serve(cfg, calls[..k]).0, calls[k])
    ensures InSync(Serve(cfg, calls).0)
  {
    if calls != [] {
      var n := |calls| - 1;
      var init := calls[..n];
      assert forall k :: 0 <= k < n ==> init[..k] == calls[..k];
      SubscribersInSyncOverRuns(cfg, init);
      SubscribersInSyncIff(cfg, Serve(cfg, init).0, calls[n]);
    }
  }

  // ---- what readers see ------------------------------------------------------

  ghost function Accepted(pool: iset<Content>): iset<Content> {
    iset c | c in pool && Validates(c)
  }

  // A content of the pool under its own version.
  ghost predicate OwnVersion(sha: string -> string, pool: iset<Content>, content: Content, versionHash: string) {
    content in pool && versionHash == VersionHash(sha, content)
  }

  ghost predicate Versioned(sha: string -> string, pool: iset<Content>, db: Db<Content>) {
    && (forall h :: h in db.commits ==> OwnVersion(sha, pool, db.commits[h].content, db.commits[h].versionHash))
    && (forall u :: u in db.prompts ==> OwnVersion(sha, pool, db.prompts[u].content, db.prompts[u].versionHash))
  }

  // A call publishes nothing but contents of the pool.
  ghost predicate PublishesFrom(pool: iset<Content>, call: Call) {
    call.req.PublishPrompt? ==> Content(call.req.template, call.req.slots) in pool
  }

  ghost predicate AllFrom(pool: iset<Content>, calls: seq<Call>) {
    forall k :: 0 <= k < |calls| ==> PublishesFrom(pool, calls[k])
  }

  lemma CommitTxKeepsVersioned(sha: string -> string, pool: iset<Content>, db: Db<Content>, branch: string, c: Commit<Content>)
    requires Versioned(sha, pool, db) && OwnVersion(sha, pool, c.content, c.versionHash)
    ensures Versioned(sha, pool, CommitTx(sha, db, branch, c))
  {
  }

  lemma PublishKeepsVersioned(cfg: Config, pool: iset<Content>, s: State, uri: string, content: Content, branch: string,
                              author: string, message: string)
    requires Versioned(cfg.sha, Accepted(pool), s.db) && content in pool
    ensures Versioned(cfg.sha, Accepted(pool), HandlePublish(cfg, s, uri, content, branch, author, message).0.db)
  {
    if Acceptable(uri, content.template, content.slots) {
      CommitTxKeepsVersioned(cfg.sha, Accepted(pool), s.db, branch,
                             NewCommit(cfg.sha, s.db, uri, branch, content, author, message));
    }
  }

  lemma MergeKeepsVersioned(cfg: Config, pool: iset<Content>, s: State, uri: string, into: string, from: string,
                            author: string, message: string)
    requires Versioned(cfg.sha, pool, s.db)
    ensures Versioned(cfg.sha, pool, HandleMerge(cfg, s, uri, into, from, author, message).0.db)
  {
    var r := MergeCommit(cfg.sha, s.db, uri, into, from, author, message);
    if r.Done? {
      CommitTxKeepsVersioned(cfg.sha, pool, s.db, into, r.value);
    }
  }

  lemma RefMovesKeepVersioned(cfg: Config, pool: iset<Content>, s: State, uri: string, branch: string, other: string)
    requires Versioned(cfg.sha, pool, s.db)
    ensures Versioned(cfg.sha, pool, HandleCreateBranch(s, uri, branch, other).0.db)
    ensures Versioned(cfg.sha, pool, HandleSetBranch(cfg, s, uri, branch, other).0.db)
  {
  }

  lemma HandleKeepsVersioned(cfg: Config, pool: iset<Content>, s: State, call: Call)
    requires Versioned(cfg.sha, Accepted(pool), s.db) && PublishesFrom(pool, call)
    ensures Versioned(cfg.sha, Accepted(pool), Handle(cfg, s, call).0.db)
  {
    match call.req {
      case PublishPrompt(uri, template, slots, branch, message) =>
        PublishKeepsVersioned(cfg, pool, s, uri, Content(template, slots), BranchOr(branch), call.author, message);
      case MergeBranch(uri, into, from, message) =>
        MergeKeepsVersioned(cfg, Accepted(pool), s, uri, BranchOr(into), from, call.author, message);
      case GetPrompt(_, _) =>
      case CreateBranch(uri, name, from) => RefMovesKeepVersioned(cfg, Accepted(pool), s, uri, name, BranchOr(from));
      case SetBranch(uri, branch, hash) => RefMovesKeepVersioned(cfg, Accepted(pool), s, uri, BranchOr(branch), hash);
    }
  }

  lemma {:induction false} RunsStayVersioned(cfg: Config, pool: iset<Content>, calls: seq<Call>)
    requires AllFrom(pool, calls)
    ensures Versioned(cfg.sha, Accepted(pool), Serve(cfg, calls).0.db)
  {
    if calls != [] {
      RunsStayVersioned(cfg, pool, calls[..|calls| - 1]);
      HandleKeepsVersioned(cfg, pool, Serve(cfg, calls[..|calls| - 1]).0, calls[|calls| - 1]);
    }
  }

  // The served row already has the published version but other content.
  predicate ServesATwin(cfg: Config, s: State, uri: string, content: Content) {
    uri in s.db.prompts && s.db.prompts[uri].versionHash == VersionHash(cfg.sha, content) && s.db.prompts[uri].content != content
  }

  // A valid publish on main is what the next HEAD read returns, at any time, exactly
  // when the served row is not a twin; no assumption on the digest.
  lemma PublishIsServedIff(cfg: Config, s: State, uri: string, content: Content, author: string, message: string, now: int)
    requires Servable(s.db) && Coherent(s) && Acceptable(uri, content.template, content.slots)
    ensures var (s', r) := HandlePublish(cfg, s, uri, content, MAIN, author, message);
      && r == Published(VersionHash(cfg.sha, content))
      && (HandleGetHead(cfg, s', uri, now).1 == Served(uri, content.template, content.slots, r.versionHash, "")
          <==> !ServesATwin(cfg, s, uri, content))
  {
    if CacheHit(cfg, s.cache, uri, now) {
      assert s.cache[uri].resp == HeadResponse(uri, s.db.prompts[uri]);
    }
  }

  predicate IsMainPublish(req: Request) {
    req.PublishPrompt? && BranchOr(req.branch) == MAIN
  }

  // If the publish is answered with a version, the HEAD read that follows returns it.
  ghost predicate ReadsBack(cfg: Config, s: State, publish: Call, reader: string, now: int)
    requires IsMainPublish(publish.req)
  {
    var req := publish.req;
    var (s', r) := Handle(cfg, s, publish);
    r.Published? ==>
      Handle(cfg, s', Call(GetPrompt(req.uri, ""), reader, now)).1
        == Served(req.uri, req.template, req.slots, VersionHash(cfg.sha, Content(req.template, req.slots)), "")
  }

  // After any run, a publish on main that is answered with a version is what the next
  // HEAD read returns, at any time and through any cache: also when the publish wrote
  // nothing because that version was served already. No two different contents that
  // the run publishes may share a version input.
  lemma PublishThenGet(cfg: Config, pool: iset<Content>, calls: seq<Call>, publish: Call, reader: string, now: int)
    requires CollisionFree(cfg.sha) && Unambiguous(Accepted(pool))
    requires AllFrom(pool, calls) && PublishesFrom(pool, publish) && IsMainPublish(publish.req)
    ensures ReadsBack(cfg, Serve(cfg, calls).0, publish, reader, now)
  {
    var s, req := Serve(cfg, calls).0, publish.req;
    var content := Content(req.template, req.slots);
    CachedServerRefinesUncached(cfg, calls);
    RunsStayVersioned(cfg, pool, calls);
    if Acceptable(req.uri, content.template, content.slots) {
      if ServesATwin(cfg, s, req.uri, content) {
        VersionIdentifies(cfg.sha, Accepted(pool), s.db.prompts[req.uri].content, content);
      }
      PublishIsServedIff(cfg, s, req.uri, content, publish.author, req.message, now);
    }
  }

  // A twin of what was published first is acknowledged and never served: the handler
  // takes it for what is served already, and HEAD goes on returning the first.
  lemma TwinIsNeverServed(cfg: Config, c: Content, d: Content, at: int, reader: string, now: int)
    requires c != d && HashInput(c.template, c.slots) == HashInput(d.template, d.slots)
    requires Validates(c) && Validates(d)
    ensures var s := Serve(cfg, [PublishOf("u", c, "", at)]).0;
      var (s', r) := Handle(cfg, s, PublishOf("u", d, "", at));
      && ServesATwin(cfg, s, "u", d) && r == Published(VersionHash(cfg.sha, d)) && s' == s
      && Handle(cfg, s', Call(GetPrompt("u", ""), reader, now)).1
           == Served("u", c.template, c.slots, VersionHash(cfg.sha, d), "")
      && !ReadsBack(cfg, s, PublishOf("u", d, "", at), reader, now)
  {
    var first := PublishOf("u", c, "", at);
    assert [] + [first] == [first];
    ServeOneMore(cfg, [], first);
    assert !IsSpace("u"[0]);
  }

  // So over a pool of contents every acknowledged publish is read back exactly when no
  // two of those that validate share a version input.
  lemma PublishesAreServedIff(cfg: Config, pool: iset<Content>)
    requires CollisionFree(cfg.sha)
    ensures
      (forall calls, publish, reader, now ::
         AllFrom(pool, calls) && PublishesFrom(pool, publish) && IsMainPublish(publish.req) ==>
           ReadsBack(cfg, Serve(cfg, calls).0, publish, reader, now))
      <==> Unambiguous(Accepted(pool))
  {
    if Unambiguous(Accepted(pool)) {
      forall calls, publish, reader, now | AllFrom(pool, calls) && PublishesFrom(pool, publish) && IsMainPublish(publish.req)
        ensures ReadsBack(cfg, Serve(cfg, calls).0, publish, reader, now)
      {
        PublishThenGet(cfg, pool, calls, publish, reader, now);
      }
    } else {
      var c, d :| c in Accepted(pool) && d in Accepted(pool)
        && HashInput(c.template, c.slots) == HashInput(d.template, d.slots) && c != d;
      TwinIsNeverServed(cfg, c, d, 0, "", 0);
      assert AllFrom(pool, [PublishOf("u", c, "", 0)]);
    }
  }

  // The smallest such pair: a repeated slot, and the same text with the slot moved into
  // the template.
  lemma RepeatedSlotIsNeverServed(cfg: Config, at: int, reader: string, now: int)
    ensures var c, d := Content("{a}", ["a", "a"]), Content("{a}\0a", ["a"]);
      var s := Serve(cfg, [PublishOf("u", c, "", at)]).0;
      ServesATwin(cfg, s, "u", d) && !ReadsBack(cfg, s, PublishOf("u", d, "", at), reader, now)
  {
    var c, d := Content("{a}", ["a", "a"]), Content("{a}\0a", ["a"]);
    RepeatedSlotCollides();
    assert c.slots != d.slots;
    assert !IsSpace(c.template[0]) && !IsSpace(d.template[0]);
    TwinIsNeverServed(cfg, c, d, at, reader, now);
  }

  // Whether a request writes to main.
  predicate TouchesMain(req: Request) {
    match req
    case PublishPrompt(_, _, _, branch, _) => BranchOr(branch) == MAIN
    case GetPrompt(_, _) => false
    case CreateBranch(_, _, _) => false
    case MergeBranch(_, into, _, _) => BranchOr(into) == MAIN
    case SetBranch(_, branch, _) => BranchOr(branch) == MAIN
  }

  lemma BranchWorkTouchesNoHead(cfg: Config, s: State, call: Call)
    requires Coherent(s) && !TouchesMain(call.req)
    ensures var s' := Handle(cfg, s, call).0; s'.events == s.events && s'.db.prompts == s.db.prompts
  {
  }

  // A HEAD read answers what is served, from a coherent cache or from the store.
  lemma HeadReadIsServed(cfg: Config, s: State, uri: string, now: int)
    requires Coherent(s) && Servable(s.db)
    ensures HandleGetHead(cfg, s, uri, now).1
      == if uri in s.db.prompts then HeadResponse(uri, s.db.prompts[uri]) else NoSuchThing
  {
  }

  // Work on other branches is invisible: no HEAD read changes and nobody is notified.
  lemma BranchWorkIsInvisible(cfg: Config, s: State, call: Call, uri: string, now: int)
    requires Coherent(s) && Servable(s.db) && !TouchesMain(call.req)
    ensures var s' := Handle(cfg, s, call).0;
      && s'.events == s.events && s'.db.prompts == s.db.prompts
      && HandleGetHead(cfg, s', uri, now).1 == HandleGetHead(cfg, s, uri, now).1
  {
    BranchWorkTouchesNoHead(cfg, s, call);
    HandleKeepsServable(cfg, s, call);
    HeadReadIsServed(cfg, s, uri, now);
    if cfg.ttl.Some? {
      HandleKeepsCoherent(cfg, s, call);
      HeadReadIsServed(cfg, Handle(cfg, s, call).0, uri, now);
    }
  }

  // A read pinned to a commit hash answers the same after any request, as long as no
  // branch has that hash for its name.
  lemma PinnedReadIsStable(cfg: Config, s: State, call: Call, uri: string, hash: string)
    requires hash in s.db.commits
    requires (uri, hash) !in s.db.refs && (uri, hash) !in Handle(cfg, s, call).0.db.refs
    ensures HandleGetByRef(Handle(cfg, s, call).0, uri, hash) == HandleGetByRef(s, uri, hash)
  {
    var db' := Handle(cfg, s, call).0.db;
    assert hash in db'.commits && db'.commits[hash] == s.db.commits[hash];
  }
}
