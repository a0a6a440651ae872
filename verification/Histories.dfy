// What each request does to histories, served rows, events and cache, and what a read by
// ref answers (internal/server/server.go and internal/store/store.go).
module Histories {
  import opened Outcomes
  import opened Placeholders
  import opened Encodings
  import opened CommitGraph
  import opened Serving
  import Interleaving

  // ---- refs ------------------------------------------------------------------

  // A ref that is a branch resolves to the newest commit of that branch's log, any other
  // ref to the commit under that very hash if it belongs to the uri.
  lemma RefResolvesTo(db: Db<Content>, uri: string, ref: string)
    requires Linked(db)
    ensures forall hs :: (uri, ref) in db.refs && BranchLog(db, uri, ref, hs) ==>
      hs[0] in db.commits && Resolve(db, uri, ref) == Done((hs[0], db.commits[hs[0]]))
    ensures (uri, ref) !in db.refs ==>
      Resolve(db, uri, ref) == if ref in db.commits && db.commits[ref].uri == uri then Done((ref, db.commits[ref])) else NotFound
  {
  }

  // A read by ref changes nothing and answers that commit, unless its content does not
  // validate.
  lemma ReadByRefAnswers(cfg: Config, s: State, uri: string, ref: string, reader: string, now: int)
    requires Linked(s.db) && ref != ""
    ensures var (s', r) := Handle(cfg, s, Call(GetPrompt(uri, ref), reader, now));
      && s' == s
      && (forall hs :: (uri, ref) in s.db.refs && BranchLog(s.db, uri, ref, hs) ==> AnswersCommit(s.db, uri, hs[0], r))
      && ((uri, ref) !in s.db.refs ==>
            if ref in s.db.commits && s.db.commits[ref].uri == uri then AnswersCommit(s.db, uri, ref, r) else r == NoSuchThing)
  {
    RefResolvesTo(s.db, uri, ref);
  }

  ghost predicate AnswersCommit(db: Db<Content>, uri: string, hash: string, r: Response) {
    && hash in db.commits
    && var c := db.commits[hash];
       r == if Acceptable(uri, c.content.template, c.content.slots)
         then Served(uri, c.content.template, c.content.slots, c.versionHash, hash) else DataLoss
  }

  // ---- commits ---------------------------------------------------------------

  // c is the branch's new tip: its hash stands in front of the old log, its row is stored
  // unless the hash is taken, and no other log changes.
  ghost predicate NewTip(sha: string -> string, db: Db<Content>, db': Db<Content>, branch: string, c: Commit<Content>) {
    var hash := CommitHash(sha, c);
    && db'.commits == (if hash in db.commits then db.commits else db.commits[hash := c])
    && Tip(db', c.uri, branch) == Some(hash)
    && (forall before :: BranchLog(db, c.uri, branch, before) ==> BranchLog(db', c.uri, branch, [hash] + before))
    && OthersKeepTheirLogs(db, db', c.uri, branch)
  }

  ghost predicate OnTip(db: Db<Content>, branch: string, c: Commit<Content>) {
    c.parent == match Tip(db, c.uri, branch) case Some(h) => h case None => ""
  }

  lemma CommitIsNewTip(sha: string -> string, db: Db<Content>, branch: string, c: Commit<Content>)
    requires Sound(sha, db) && NulFree(c.versionHash) && Known(db.commits, c.parent2) && OnTip(db, branch, c)
    ensures NewTip(sha, db, CommitTx(sha, db, branch, c), branch, c)
  {
    var db' := CommitTx(sha, db, branch, c);
    CommitTxSparesOthers(sha, db, branch, c);
    forall before | BranchLog(db, c.uri, branch, before)
      ensures BranchLog(db', c.uri, branch, [CommitHash(sha, c)] + before)
    {
      CommitTxPrepends(sha, db, branch, c, before);
    }
  }

  // The verdict that an event carries.
  function VerdictOf(cfg: Config, before: string, after: string): string {
    if cfg.verdict.Some? && before != "" then cfg.verdict.value(before, after) else ""
  }

  // Besides the tables: nothing off main; on main the cached response goes and, where
  // there is a notifier and the change is announced, one event is added.
  ghost predicate MainSees(cfg: Config, s: State, s': State, uri: string, branch: string, event: Option<Event>) {
    && s'.cache == (if branch == "main" && cfg.ttl.Some? then s.cache - {uri} else s.cache)
    && s'.events == s.events + (if branch == "main" && cfg.notify && event.Some? then [event.value] else [])
  }

  function ServedAfter(db: Db<Content>, uri: string, branch: string, row: Row<Content>): map<string, Row<Content>> {
    if branch == "main" then db.prompts[uri := row] else db.prompts
  }

  // The commit that a publish makes.
  function PublishedCommit(cfg: Config, db: Db<Content>, req: Request, author: string): Commit<Content>
    requires req.PublishPrompt?
  {
    var content := Content(req.template, req.slots);
    var parent := match Tip(db, req.uri, if req.branch == "" then "main" else req.branch) case Some(h) => h case None => "";
    Commit(req.uri, content, VersionHash(cfg.sha, content), parent, "", author, req.message)
  }

  // The tables, served rows, events and cache after a publish that commits.
  lemma PublishWrites(cfg: Config, s: State, call: Call)
    requires call.req.PublishPrompt? && Acceptable(call.req.uri, call.req.template, call.req.slots)
    ensures var (s', r) := Handle(cfg, s, call);
      var req, c := call.req, PublishedCommit(cfg, s.db, call.req, call.author);
      var branch := if req.branch == "" then "main" else req.branch;
      if branch == "main" && req.uri in s.db.prompts && s.db.prompts[req.uri].versionHash == c.versionHash then
        r == Published(c.versionHash) && s' == s
      else
        && r == Published(c.versionHash)
        && s'.db == CommitTx(cfg.sha, s.db, branch, c)
        && s'.db.prompts == ServedAfter(s.db, req.uri, branch, Row(c.content, c.versionHash))
        && MainSees(cfg, s, s', req.uri, branch, Some(Event(req.uri, c.versionHash,
             if req.uri in s.db.prompts then VerdictOf(cfg, s.db.prompts[req.uri].content.template, req.template) else "new")))
  {
  }

  // An invalid publish and one of what main serves already change nothing. Any other one
  // makes its content, by that author and with that message, the new tip of its branch,
  // on main "main" when none is named, and on main serves and announces it.
  lemma PublishMakesATip(cfg: Config, s: State, call: Call)
    requires Sound(cfg.sha, s.db) && call.req.PublishPrompt?
    ensures var (s', r) := Handle(cfg, s, call);
      var req, c := call.req, PublishedCommit(cfg, s.db, call.req, call.author);
      var branch := if req.branch == "" then "main" else req.branch;
      if !Acceptable(req.uri, req.template, req.slots) then r == InvalidArgument && s' == s
      else if branch == "main" && req.uri in s.db.prompts && s.db.prompts[req.uri].versionHash == c.versionHash then
        r == Published(c.versionHash) && s' == s
      else
        && r == Published(c.versionHash)
        && NewTip(cfg.sha, s.db, s'.db, branch, c)
        && s'.db.prompts == ServedAfter(s.db, req.uri, branch, Row(c.content, c.versionHash))
        && MainSees(cfg, s, s', req.uri, branch, Some(Event(req.uri, c.versionHash,
             if req.uri in s.db.prompts then VerdictOf(cfg, s.db.prompts[req.uri].content.template, req.template) else "new")))
  {
    var req := call.req;
    if Acceptable(req.uri, req.template, req.slots) {
      PublishWrites(cfg, s, call);
      CommitIsNewTip(cfg.sha, s.db, if req.branch == "" then "main" else req.branch, PublishedCommit(cfg, s.db, req, call.author));
    }
  }

  // The commit that a merge makes.
  function MergedCommit(cfg: Config, db: Db<Content>, req: Request, author: string): Commit<Content>
    requires req.MergeBranch?
  {
    var into := if req.into == "" then "main" else req.into;
    var dst := match Tip(db, req.uri, into) case Some(h) => h case None => "";
    var src := match Tip(db, req.uri, req.from) case Some(h) => h case None => "";
    var content := if src in db.commits then db.commits[src].content else Content("", []);
    Commit(req.uri, content, VersionHash(cfg.sha, content), dst, src, author,
           if req.message == "" then "merge " + req.from + " into " + into else req.message)
  }

  lemma MergeWrites(cfg: Config, s: State, call: Call)
    requires call.req.MergeBranch? && (forall r :: r in s.db.refs ==> s.db.refs[r] in s.db.commits)
    requires (call.req.uri, BranchOr(call.req.into)) in s.db.refs && (call.req.uri, call.req.from) in s.db.refs
    ensures var (s', r) := Handle(cfg, s, call);
      var req, c := call.req, MergedCommit(cfg, s.db, call.req, call.author);
      var into := if req.into == "" then "main" else req.into;
      && r == Merged(CommitHash(cfg.sha, c))
      && s'.db == CommitTx(cfg.sha, s.db, into, c)
      && s'.db.prompts == ServedAfter(s.db, req.uri, into, Row(c.content, c.versionHash))
      && MainSees(cfg, s, s', req.uri, into, None)
  {
  }

  lemma MergeRefused(cfg: Config, s: State, call: Call)
    requires call.req.MergeBranch?
    requires (call.req.uri, BranchOr(call.req.into)) !in s.db.refs || (call.req.uri, call.req.from) !in s.db.refs
    ensures Handle(cfg, s, call) == (s, NoSuchThing)
  {
  }

  // The merge commit stands on the branch's tip, and both its parents exist.
  lemma MergedCommitFits(cfg: Config, db: Db<Content>, req: Request, author: string)
    requires IsDigest(cfg.sha) && Linked(db) && req.MergeBranch?
    requires (req.uri, BranchOr(req.into)) in db.refs && (req.uri, req.from) in db.refs
    ensures var c := MergedCommit(cfg, db, req, author);
      && c.uri == req.uri && OnTip(db, BranchOr(req.into), c) && NulFree(c.versionHash)
      && c.parent in db.commits && c.parent != "" && c.parent2 == db.refs[(req.uri, req.from)] && c.parent2 in db.commits
      && c.content == db.commits[c.parent2].content && c.versionHash == VersionHash(cfg.sha, c.content)
  {
    assert db.refs[(req.uri, BranchOr(req.into))] in db.commits && db.refs[(req.uri, req.from)] in db.commits;
  }

  // A merge needs both branches. It makes the new tip of the first a commit with both
  // tips as parents and the second one's content, serves that on main, and tells nobody.
  lemma MergeMakesATip(cfg: Config, s: State, call: Call)
    requires Sound(cfg.sha, s.db) && call.req.MergeBranch?
    ensures var (s', r) := Handle(cfg, s, call);
      var req, c := call.req, MergedCommit(cfg, s.db, call.req, call.author);
      var into := if req.into == "" then "main" else req.into;
      if (req.uri, into) !in s.db.refs || (req.uri, req.from) !in s.db.refs then r == NoSuchThing && s' == s
      else
        && r == Merged(CommitHash(cfg.sha, c))
        && NewTip(cfg.sha, s.db, s'.db, into, c)
        && s'.db.prompts == ServedAfter(s.db, req.uri, into, Row(c.content, c.versionHash))
        && MainSees(cfg, s, s', req.uri, into, None)
  {
    var req := call.req;
    if (req.uri, BranchOr(req.into)) in s.db.refs && (req.uri, req.from) in s.db.refs {
      MergeWrites(cfg, s, call);
      MergedCommitFits(cfg, s.db, req, call.author);
      CommitIsNewTip(cfg.sha, s.db, BranchOr(req.into), MergedCommit(cfg, s.db, req, call.author));
    } else {
      MergeRefused(cfg, s, call);
    }
  }

  // ---- moved and new branches ------------------------------------------------

  // The branch has the log of the commit, and no other log nor any commit changes.
  ghost predicate HasLogOf(db: Db<Content>, db': Db<Content>, uri: string, branch: string, hash: string) {
    && db'.commits == db.commits && Tip(db', uri, branch) == Some(hash)
    && (forall hs :: IsLog(db.commits, hash, hs) ==> BranchLog(db', uri, branch, hs))
    && OthersKeepTheirLogs(db, db', uri, branch)
  }

  // SetBranch needs a commit of the uri. The branch takes over that commit's log, and on
  // main its row is served and announced.
  lemma SetBranchTakesTheLog(cfg: Config, s: State, call: Call)
    requires call.req.SetBranch?
    ensures var (s', r) := Handle(cfg, s, call);
      var uri, hash := call.req.uri, call.req.commitHash;
      var branch := if call.req.branch == "" then "main" else call.req.branch;
      if hash == "" then r == InvalidArgument && s' == s
      else if hash !in s.db.commits || s.db.commits[hash].uri != uri then r == NoSuchThing && s' == s
      else
        var c := s.db.commits[hash];
        && r == BranchSet(c.versionHash)
        && HasLogOf(s.db, s'.db, uri, branch, hash)
        && s'.db.prompts == ServedAfter(s.db, uri, branch, Row(c.content, c.versionHash))
        && MainSees(cfg, s, s', uri, branch, Some(Event(uri, c.versionHash,
             VerdictOf(cfg, if uri in s.db.prompts then s.db.prompts[uri].content.template else "", c.content.template))))
  {
  }

  // CreateBranch needs a name, a source, main when none is named, and no branch of that
  // name. The new branch has its source's log, and nothing else changes.
  lemma CreateBranchSharesTheLog(cfg: Config, s: State, call: Call)
    requires call.req.CreateBranch?
    ensures var (s', r) := Handle(cfg, s, call);
      var uri, name := call.req.uri, call.req.name;
      var from := if call.req.from == "" then "main" else call.req.from;
      if name == "" then r == InvalidArgument && s' == s
      else if (uri, from) !in s.db.refs then r == NoSuchThing && s' == s
      else if (uri, name) in s.db.refs then r == Internal && s' == s
      else
        var tip := s.db.refs[(uri, from)];
        r == BranchCreated(tip) && HasLogOf(s.db, s'.db, uri, name, tip) && s' == s.(db := s.db.(refs := s'.db.refs))
  {
  }

  // ---- the cache -------------------------------------------------------------

  // A HEAD read that missed is cached for one ttl from then on, and no longer.
  lemma ReadIsCachedForOneTtl(cfg: Config, s: State, uri: string, now: int, later: int)
    requires !CacheHit(cfg, s.cache, uri, now) && HandleGetHead(cfg, s, uri, now).1.Served?
    ensures var (s', r) := HandleGetHead(cfg, s, uri, now);
      && (cfg.ttl.None? ==> s' == s)
      && (cfg.ttl.Some? ==>
            && (CacheHit(cfg, s'.cache, uri, later) <==> later <= now + cfg.ttl.value)
            && (later <= now + cfg.ttl.value ==> HandleGetHead(cfg, s', uri, later) == (s', r)))
  {
  }

  // A served row that does not validate is never answered, nor cached.
  lemma InvalidRowIsDataLoss(cfg: Config, s: State, uri: string, now: int)
    requires !CacheHit(cfg, s.cache, uri, now) && uri in s.db.prompts
    requires var c := s.db.prompts[uri].content; !Acceptable(uri, c.template, c.slots)
    ensures HandleGetHead(cfg, s, uri, now) == (s, DataLoss)
  {
  }

  // ---- whole runs ------------------------------------------------------------

  lemma VersionedIsFromPool(sha: string -> string, pool: iset<Content>, db: Db<Content>)
    requires Versioned(sha, pool, db)
    ensures Interleaving.RowsFromPool(sha, pool, db.commits)
  {
  }

  // Sound, rightly versioned, and serving main's commits.
  ghost predicate InOrder(cfg: Config, pool: iset<Content>, db: Db<Content>) {
    && Sound(cfg.sha, db) && Versioned(cfg.sha, Accepted(pool), db) && ServedIsMain(db)
  }

  lemma CommitKeepsServing(cfg: Config, pool: iset<Content>, db: Db<Content>, branch: string, c: Commit<Content>)
    requires InOrder(cfg, pool, db) && Unambiguous(Accepted(pool))
    requires c.content in Accepted(pool) && c.versionHash == VersionHash(cfg.sha, c.content)
    requires Known(db.commits, c.parent) && Known(db.commits, c.parent2) && (c.parent == "" ==> c.parent2 == "")
    ensures Sound(cfg.sha, CommitTx(cfg.sha, db, branch, c)) && ServedIsMain(CommitTx(cfg.sha, db, branch, c))
  {
    CommitTxKeepsSound(cfg.sha, db, branch, c);
    VersionedIsFromPool(cfg.sha, Accepted(pool), db);
    Interleaving.CommitTxKeepsServed(cfg.sha, Accepted(pool), db, branch, c);
  }

  lemma PublishKeepsOrder(cfg: Config, pool: iset<Content>, s: State, call: Call)
    requires InOrder(cfg, pool, s.db) && Unambiguous(Accepted(pool)) && call.req.PublishPrompt? && PublishesFrom(pool, call)
    ensures Sound(cfg.sha, Handle(cfg, s, call).0.db) && ServedIsMain(Handle(cfg, s, call).0.db)
  {
    var req := call.req;
    if Acceptable(req.uri, req.template, req.slots) {
      PublishWrites(cfg, s, call);
      CommitKeepsServing(cfg, pool, s.db, BranchOr(req.branch), PublishedCommit(cfg, s.db, req, call.author));
    }
  }

  lemma MergeKeepsOrder(cfg: Config, pool: iset<Content>, s: State, call: Call)
    requires InOrder(cfg, pool, s.db) && Unambiguous(Accepted(pool)) && call.req.MergeBranch?
    ensures Sound(cfg.sha, Handle(cfg, s, call).0.db) && ServedIsMain(Handle(cfg, s, call).0.db)
  {
    var req := call.req;
    if (req.uri, BranchOr(req.into)) in s.db.refs && (req.uri, req.from) in s.db.refs {
      MergeWrites(cfg, s, call);
      MergedCommitFits(cfg, s.db, req, call.author);
      CommitKeepsServing(cfg, pool, s.db, BranchOr(req.into), MergedCommit(cfg, s.db, req, call.author));
    } else {
      MergeRefused(cfg, s, call);
    }
  }

  lemma SameCommitsStaySound(sha: string -> string, db: Db<Content>, db': Db<Content>)
    requires Sound(sha, db) && db'.commits == db.commits && Linked(db')
    ensures Sound(sha, db')
  {
  }

  lemma SetBranchKeepsServed(cfg: Config, s: State, call: Call)
    requires ServedIsMain(s.db) && call.req.SetBranch?
    ensures ServedIsMain(Handle(cfg, s, call).0.db)
  {
    var r := CommitOf(s.db, call.req.uri, call.req.commitHash);
    if call.req.commitHash != "" && r.Done? {
      Interleaving.SetTxKeepsServed(s.db, call.req.uri, BranchOr(call.req.branch), call.req.commitHash,
                                    Row(r.value.content, r.value.versionHash));
    }
  }

  lemma RefMovesKeepCommits(cfg: Config, s: State, call: Call)
    requires call.req.SetBranch? || call.req.CreateBranch?
    ensures Handle(cfg, s, call).0.db.commits == s.db.commits
  {
  }

  lemma SetBranchKeepsOrder(cfg: Config, s: State, call: Call)
    requires Sound(cfg.sha, s.db) && ServedIsMain(s.db) && call.req.SetBranch?
    ensures Sound(cfg.sha, Handle(cfg, s, call).0.db) && ServedIsMain(Handle(cfg, s, call).0.db)
  {
    SetBranchKeepsServed(cfg, s, call);
    RefMovesKeepCommits(cfg, s, call);
    SetBranchKeepsGraph(cfg, s, call.req.uri, BranchOr(call.req.branch), call.req.commitHash);
    SameCommitsStaySound(cfg.sha, s.db, Handle(cfg, s, call).0.db);
  }

  lemma CreateBranchKeepsServed(cfg: Config, s: State, call: Call)
    requires ServedIsMain(s.db) && call.req.CreateBranch?
    ensures ServedIsMain(Handle(cfg, s, call).0.db)
  {
    var uri, name, from := call.req.uri, call.req.name, BranchOr(call.req.from);
    if (uri, from) in s.db.refs && InsertRef(s.db, uri, name, s.db.refs[(uri, from)]).Done? {
      Interleaving.InsertRefKeepsServed(s.db, uri, name, s.db.refs[(uri, from)]);
    }
  }

  lemma CreateBranchKeepsOrder(cfg: Config, s: State, call: Call)
    requires Sound(cfg.sha, s.db) && ServedIsMain(s.db) && call.req.CreateBranch?
    ensures Sound(cfg.sha, Handle(cfg, s, call).0.db) && ServedIsMain(Handle(cfg, s, call).0.db)
  {
    CreateBranchKeepsServed(cfg, s, call);
    RefMovesKeepCommits(cfg, s, call);
    NewBranchHandlerKeepsGraph(s, call.req.uri, call.req.name, BranchOr(call.req.from));
    SameCommitsStaySound(cfg.sha, s.db, Handle(cfg, s, call).0.db);
  }

  lemma HandleKeepsOrder(cfg: Config, pool: iset<Content>, s: State, call: Call)
    requires InOrder(cfg, pool, s.db) && Unambiguous(Accepted(pool)) && PublishesFrom(pool, call)
    ensures InOrder(cfg, pool, Handle(cfg, s, call).0.db)
  {
    HandleKeepsVersioned(cfg, pool, s, call);
    if call.req.PublishPrompt? {
      PublishKeepsOrder(cfg, pool, s, call);
    } else if call.req.MergeBranch? {
      MergeKeepsOrder(cfg, pool, s, call);
    } else if call.req.SetBranch? {
      SetBranchKeepsOrder(cfg, s, call);
    } else if call.req.CreateBranch? {
      CreateBranchKeepsOrder(cfg, s, call);
    } else {
      assert Handle(cfg, s, call).0.db == s.db;
    }
  }

  // With requests handled one at a time, served rows are main's commits over every run,
  // and histories are sound.
  lemma {:induction false} EveryRunIsInOrder(cfg: Config, pool: iset<Content>, calls: seq<Call>)
    requires IsDigest(cfg.sha) && CollisionFree(cfg.sha) && Unambiguous(Accepted(pool)) && AllFrom(pool, calls)
    ensures InOrder(cfg, pool, Serve(cfg, calls).0.db)
  {
    if calls == [] {
      assert Ranked(FRESH.db.commits, map[]);
    } else {
      EveryRunIsInOrder(cfg, pool, calls[..|calls| - 1]);
      HandleKeepsOrder(cfg, pool, Serve(cfg, calls[..|calls| - 1]).0, calls[|calls| - 1]);
    }
  }

  // The tip of the branch carries the published content under its version.
  ghost predicate TipCarries(db: Db<Content>, uri: string, branch: string, content: Content, version: string) {
    && (uri, branch) in db.refs && db.refs[(uri, branch)] in db.commits
    && db.commits[db.refs[(uri, branch)]].content == content && db.commits[db.refs[(uri, branch)]].versionHash == version
  }

  lemma PublishedTipCarries(cfg: Config, pool: iset<Content>, s: State, publish: Call)
    requires InOrder(cfg, pool, s.db) && Unambiguous(Accepted(pool))
    requires publish.req.PublishPrompt? && PublishesFrom(pool, publish)
    requires Acceptable(publish.req.uri, publish.req.template, publish.req.slots)
    ensures var content := Content(publish.req.template, publish.req.slots);
      TipCarries(Handle(cfg, s, publish).0.db, publish.req.uri, if publish.req.branch == "" then "main" else publish.req.branch,
                 content, VersionHash(cfg.sha, content))
  {
    var req := publish.req;
    var c, branch := PublishedCommit(cfg, s.db, req, publish.author), BranchOr(req.branch);
    PublishMakesATip(cfg, s, publish);
    if branch == MAIN && req.uri in s.db.prompts && s.db.prompts[req.uri].versionHash == c.versionHash {
      VersionIdentifies(cfg.sha, Accepted(pool), s.db.prompts[req.uri].content, c.content);
    } else if CommitHash(cfg.sha, c) in s.db.commits {
      TakenHashSameFields(cfg.sha, s.db.commits, c);
      VersionIdentifies(cfg.sha, Accepted(pool), s.db.commits[CommitHash(cfg.sha, c)].content, c.content);
    }
  }

  // After any run, an accepted publish to any branch is what a read of that branch
  // answers, under the hash of the newest entry of its log, also when nothing was
  // written. No two different contents that the run publishes may share a version input.
  lemma PublishThenGetByBranch(cfg: Config, pool: iset<Content>, calls: seq<Call>, publish: Call, reader: string, now: int)
    requires IsDigest(cfg.sha) && CollisionFree(cfg.sha) && Unambiguous(Accepted(pool))
    requires AllFrom(pool, calls) && PublishesFrom(pool, publish) && publish.req.PublishPrompt?
    ensures var req := publish.req;
      var branch := if req.branch == "" then "main" else req.branch;
      var (s', r) := Handle(cfg, Serve(cfg, calls).0, publish);
      r.Published? ==>
        && r.versionHash == VersionHash(cfg.sha, Content(req.template, req.slots))
        && exists hs :: BranchLog(s'.db, req.uri, branch, hs) && hs != []
             && Handle(cfg, s', Call(GetPrompt(req.uri, branch), reader, now)).1
                  == Served(req.uri, req.template, req.slots, r.versionHash, hs[0])
  {
    var req, s := publish.req, Serve(cfg, calls).0;
    var branch := BranchOr(req.branch);
    EveryRunIsInOrder(cfg, pool, calls);
    PublishMakesATip(cfg, s, publish);
    if Acceptable(req.uri, req.template, req.slots) {
      var s' := Handle(cfg, s, publish).0;
      HandleKeepsOrder(cfg, pool, s, publish);
      PublishedTipCarries(cfg, pool, s, publish);
      var hs := TheLog(s'.db, req.uri, branch);
      ReadByRefAnswers(cfg, s', req.uri, branch, reader, now);
      assert BranchLog(s'.db, req.uri, branch, hs);
    }
  }
}
