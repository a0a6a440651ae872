// The store as a concurrent protocol: every read an operation makes outside its
// transaction is a step of its own, so what it carries into the transaction can be
// stale (internal/store/store.go).
module Interleaving {
  import opened Outcomes
  import opened Placeholders
  import opened Encodings
  import opened CommitGraph

  // What an operation in flight has read so far.
  datatype Pending =
    | CommitReady(branch: string, commit: Commit<Content>)
    | MergeHasInto(uri: string, into: string, from: string, dst: string, author: string, message: string)
    | MergeHasFrom(uri: string, into: string, from: string, dst: string, src: string, author: string, message: string)
    | BranchReady(uri: string, name: string, src: string)
    | SetReady(uri: string, branch: string, hash: string, row: Row<Content>)

  // Step of operation id. Put is the write of the served row that bypasses the graph.
  datatype Action =
    | ReadForCommit(id: nat, uri: string, branch: string, content: Content, author: string, message: string)
    | ReadInto(id: nat, uri: string, into: string, from: string, author: string, message: string)
    | ReadFrom(id: nat)
    | ReadSource(id: nat)
    | ReadForBranch(id: nat, uri: string, name: string, from: string)
    | ReadForSet(id: nat, uri: string, branch: string, hash: string)
    | Transact(id: nat)
    | Abandon(id: nat)
    | Put(uri: string, content: Content)

  datatype Sys = Sys(db: Db<Content>, pending: map<nat, Pending>)

  const INIT: Sys := Sys(Db(map[], map[], map[]), map[])

  // An operation whose read fails, or that is abandoned, leaves no trace.
  function Keep(s: Sys, id: nat, p: Option<Pending>): Sys {
    s.(pending := if p.Some? then s.pending[id := p.value] else s.pending - {id})
  }

  predicate IsReady(p: Pending) {
    p.CommitReady? || p.BranchReady? || p.SetReady?
  }

  // The transaction of a ready operation; a branch that exists makes its insert fail.
  function AfterTx(sha: string -> string, db: Db<Content>, p: Pending): Db<Content>
    requires IsReady(p)
  {
    match p
    case CommitReady(branch, c) => CommitTx(sha, db, branch, c)
    case BranchReady(uri, name, src) =>
      var r := InsertRef(db, uri, name, src);
      if r.Done? then r.value else db
    case SetReady(uri, branch, hash, row) => SetTx(db, uri, branch, hash, row)
  }

  function Current(s: Sys, id: nat): Option<Pending> {
    if id in s.pending then Some(s.pending[id]) else None
  }

  // What operation a.id holds after its read: nothing when the read fails, and
  // what it held before when it is not at that read.
  function Read(sha: string -> string, s: Sys, a: Action): Option<Pending>
    requires !a.Put? && !a.Transact?
  {
    match a
    case ReadForCommit(id, uri, branch, content, author, message) =>
      Some(CommitReady(branch, NewCommit(sha, s.db, uri, branch, content, author, message)))
    case ReadInto(id, uri, into, from, author, message) =>
      var dst := Tip(s.db, uri, into);
      if dst.Some? then Some(MergeHasInto(uri, into, from, dst.value, author, message)) else None
    case ReadFrom(id) =>
      var p := Current(s, id);
      if p.Some? && p.value.MergeHasInto? then
        var src := Tip(s.db, p.value.uri, p.value.from);
        if src.Some? then Some(WithSource(p.value, src.value)) else None
      else p
    case ReadSource(id) =>
      var p := Current(s, id);
      if p.Some? && p.value.MergeHasFrom? then
        if p.value.src in s.db.commits then Some(CommitReady(p.value.into, MergeOf(sha, s.db, p.value))) else None
      else p
    case ReadForBranch(id, uri, name, from) =>
      var src := Tip(s.db, uri, from);
      if src.Some? then Some(BranchReady(uri, name, src.value)) else None
    case ReadForSet(id, uri, branch, hash) =>
      var c := CommitOf(s.db, uri, hash);
      if c.Done? then Some(SetReady(uri, branch, hash, Row(c.value.content, c.value.versionHash))) else None
    case Abandon(id) => None
  }

  function Step(sha: string -> string, s: Sys, a: Action): Sys {
    if a.Put? then
      s.(db := s.db.(prompts := s.db.prompts[a.uri := Row(a.content, VersionHash(sha, a.content))]))
    else if a.Transact? then
      if a.id in s.pending && IsReady(s.pending[a.id]) then
        Sys(AfterTx(sha, s.db, s.pending[a.id]), s.pending - {a.id})
      else s
    else Keep(s, a.id, Read(sha, s, a))
  }

  function WithSource(p: Pending, src: string): Pending
    requires p.MergeHasInto?
  {
    MergeHasFrom(p.uri, p.into, p.from, p.dst, src, p.author, p.message)
  }

  // The merge commit of the tips the merge has read, carrying the content of from's.
  function MergeWith(sha: string -> string, p: Pending, content: Content): Commit<Content>
    requires p.MergeHasFrom?
  {
    Commit(p.uri, content, VersionHash(sha, content), p.dst, p.src, p.author, MergeMessage(p.message, p.from, p.into))
  }

  function MergeOf(sha: string -> string, db: Db<Content>, p: Pending): Commit<Content>
    requires p.MergeHasFrom? && p.src in db.commits
  {
    MergeWith(sha, p, db.commits[p.src].content)
  }

  function Run(sha: string -> string, acts: seq<Action>): Sys {
    if acts == [] then INIT
    else Step(sha, Run(sha, acts[..|acts| - 1]), acts[|acts| - 1])
  }

  // ---- reads stay true -------------------------------------------------------

  // What a pending operation carries into its transaction still names existing
  // commits, however stale it is: commits are never removed.
  ghost predicate StillKnown(commits: map<string, Commit<Content>>, p: Pending) {
    match p
    case CommitReady(_, c) =>
      Known(commits, c.parent) && Known(commits, c.parent2) && (c.parent == "" ==> c.parent2 == "")
    case MergeHasInto(_, _, _, dst, _, _) => dst in commits
    case MergeHasFrom(_, _, _, dst, src, _, _) => dst in commits && src in commits
    case BranchReady(_, _, src) => src in commits
    case SetReady(_, _, hash, row) =>
      hash in commits && commits[hash].content == row.content && commits[hash].versionHash == row.versionHash
  }

  ghost predicate Inv(s: Sys) {
    && Linked(s.db) && Acyclic(s.db.commits)
    && forall id :: id in s.pending ==> StillKnown(s.db.commits, s.pending[id])
  }

  lemma ReadIsKnown(sha: string -> string, s: Sys, a: Action)
    requires !a.Put? && !a.Transact? && Inv(s) && Read(sha, s, a).Some?
    ensures StillKnown(s.db.commits, Read(sha, s, a).value)
  {
  }

  lemma TxKeepsLinks(sha: string -> string, db: Db<Content>, p: Pending)
    requires IsDigest(sha) && Linked(db) && Acyclic(db.commits) && IsReady(p) && StillKnown(db.commits, p)
    ensures Linked(AfterTx(sha, db, p)) && Acyclic(AfterTx(sha, db, p).commits)
    ensures Grows(db.commits, AfterTx(sha, db, p).commits)
  {
    if p.CommitReady? {
      CommitTxKeepsLinks(sha, db, p.branch, p.commit);
      CommitTxGrows(sha, db, p.branch, p.commit);
    }
  }

  lemma StillKnownGrows(commits: map<string, Commit<Content>>, commits': map<string, Commit<Content>>, p: Pending)
    requires StillKnown(commits, p) && Grows(commits, commits')
    ensures StillKnown(commits', p)
  {
  }

  lemma StepKeepsInv(sha: string -> string, s: Sys, a: Action)
    requires IsDigest(sha) && Inv(s)
    ensures Inv(Step(sha, s, a)) && Grows(s.db.commits, Step(sha, s, a).db.commits)
  {
    if a.Transact? {
      if a.id in s.pending && IsReady(s.pending[a.id]) {
        TxKeepsLinks(sha, s.db, s.pending[a.id]);
        forall id | id in s.pending ensures StillKnown(Step(sha, s, a).db.commits, s.pending[id]) {
          StillKnownGrows(s.db.commits, Step(sha, s, a).db.commits, s.pending[id]);
        }
      }
    } else if !a.Put? && Read(sha, s, a).Some? {
      ReadIsKnown(sha, s, a);
    }
  }

  // In every reachable state of every interleaving refs and parents name existing
  // commits and the graph is acyclic, collisions or not; so every branch has
  // exactly one log.
  lemma {:induction false} EveryRunIsLinkedAndAcyclic(sha: string -> string, acts: seq<Action>)
    requires IsDigest(sha)
    ensures Inv(Run(sha, acts))
  {
    if acts == [] {
      assert Ranked(INIT.db.commits, map[]);
    } else {
      EveryRunIsLinkedAndAcyclic(sha, acts[..|acts| - 1]);
      StepKeepsInv(sha, Run(sha, acts[..|acts| - 1]), acts[|acts| - 1]);
    }
  }

  // A log walked while other operations run is the log at the time its tip was read:
  // no later step changes a row on it.
  lemma {:induction false} LogOutlivesLaterSteps(sha: string -> string, acts: seq<Action>, later: seq<Action>, h: string, hs: seq<string>)
    requires IsDigest(sha) && IsLog(Run(sha, acts).db.commits, h, hs)
    ensures IsLog(Run(sha, acts + later).db.commits, h, hs)
    ensures Grows(Run(sha, acts).db.commits, Run(sha, acts + later).db.commits)
    decreases |later|
  {
    if later == [] {
      assert acts + later == acts;
    } else {
      var n := |later| - 1;
      LogOutlivesLaterSteps(sha, acts, later[..n], h, hs);
      assert acts + later == (acts + later[..n]) + [later[n]];
      RunOneMore(sha, acts + later[..n], later[n]);
      EveryRunIsLinkedAndAcyclic(sha, acts + later[..n]);
      StepKeepsInv(sha, Run(sha, acts + later[..n]), later[n]);
      LogSurvives(Run(sha, acts + later[..n]).db.commits, Run(sha, acts + later).db.commits, h, hs);
    }
  }

  // ---- content addressing ----------------------------------------------------

  ghost predicate CarriesSeparable(p: Pending) {
    p.CommitReady? ==> SeparableFields(p.commit)
  }

  ghost predicate AddressInv(sha: string -> string, s: Sys) {
    Addressed(sha, s.db.commits) && forall id :: id in s.pending ==> CarriesSeparable(s.pending[id])
  }

  lemma ReadCarriesSeparable(sha: string -> string, s: Sys, a: Action)
    requires IsDigest(sha) && Inv(s) && AddressInv(sha, s)
    requires !a.Put? && !a.Transact? && Read(sha, s, a).Some?
    ensures CarriesSeparable(Read(sha, s, a).value)
  {
  }

  lemma TxKeepsAddresses(sha: string -> string, db: Db<Content>, p: Pending)
    requires Addressed(sha, db.commits) && IsReady(p) && CarriesSeparable(p)
    ensures Addressed(sha, AfterTx(sha, db, p).commits)
  {
  }

  lemma StepKeepsAddresses(sha: string -> string, s: Sys, a: Action)
    requires IsDigest(sha) && Inv(s) && AddressInv(sha, s)
    ensures AddressInv(sha, Step(sha, s, a))
  {
    if a.Transact? {
      if a.id in s.pending && IsReady(s.pending[a.id]) {
        TxKeepsAddresses(sha, s.db, s.pending[a.id]);
      }
    } else if !a.Put? && Read(sha, s, a).Some? {
      ReadCarriesSeparable(sha, s, a);
    }
  }

  lemma {:induction false} EveryRunIsAddressed(sha: string -> string, acts: seq<Action>)
    requires IsDigest(sha)
    ensures Inv(Run(sha, acts)) && AddressInv(sha, Run(sha, acts))
  {
    EveryRunIsLinkedAndAcyclic(sha, acts);
    if acts != [] {
      EveryRunIsAddressed(sha, acts[..|acts| - 1]);
      StepKeepsAddresses(sha, Run(sha, acts[..|acts| - 1]), acts[|acts| - 1]);
    }
  }

  // ---- each uri keeps to itself ----------------------------------------------

  ghost predicate Within(commits: map<string, Commit<Content>>, h: string, uri: string) {
    h in commits ==> commits[h].uri == uri
  }

  // Every ref and both parent links stay within their own uri.
  ghost predicate Local(db: Db<Content>) {
    && (forall r :: r in db.refs ==> Within(db.commits, db.refs[r], r.0))
    && (forall h {:trigger db.commits[h].parent} :: h in db.commits ==> Within(db.commits, db.commits[h].parent, db.commits[h].uri))
    && (forall h {:trigger db.commits[h].parent2} :: h in db.commits ==> Within(db.commits, db.commits[h].parent2, db.commits[h].uri))
  }

  ghost predicate PendingLocal(commits: map<string, Commit<Content>>, p: Pending) {
    match p
    case CommitReady(_, c) => Within(commits, c.parent, c.uri) && Within(commits, c.parent2, c.uri)
    case MergeHasInto(uri, _, _, dst, _, _) => Within(commits, dst, uri)
    case MergeHasFrom(uri, _, _, dst, src, _, _) => Within(commits, dst, uri) && Within(commits, src, uri)
    case BranchReady(uri, _, src) => Within(commits, src, uri)
    case SetReady(uri, _, hash, _) => Within(commits, hash, uri)
  }

  ghost predicate LocalInv(s: Sys) {
    Local(s.db) && forall id :: id in s.pending ==> PendingLocal(s.db.commits, s.pending[id])
  }

  // A root commit whose hash another uri already holds.
  ghost predicate SharesRoot(sha: string -> string, s: Sys, a: Action) {
    && a.Transact? && a.id in s.pending && s.pending[a.id].CommitReady?
    && var c := s.pending[a.id].commit;
       && c.parent == "" && CommitHash(sha, c) in s.db.commits
       && s.db.commits[CommitHash(sha, c)].uri != c.uri
  }

  lemma AppendKeepsLocal(db: Db<Content>, hash: string, c: Commit<Content>)
    requires Linked(db) && Local(db) && hash !in db.commits && hash != ""
    requires Within(db.commits, c.parent, c.uri) && Within(db.commits, c.parent2, c.uri)
    requires Known(db.commits, c.parent) && Known(db.commits, c.parent2)
    ensures Local(db.(commits := db.commits[hash := c]))
  {
  }

  // Under collision-free digests a taken hash holds a row with the same parent, so
  // with a parent the uris agree.
  lemma TakenHashSameUri(sha: string -> string, db: Db<Content>, c: Commit<Content>)
    requires CollisionFree(sha) && Addressed(sha, db.commits) && SeparableFields(c) && CommitHash(sha, c) in db.commits
    requires Local(db) && c.parent in db.commits && Within(db.commits, c.parent, c.uri)
    ensures db.commits[CommitHash(sha, c)].uri == c.uri
  {
    TakenHashSameFields(sha, db.commits, c);
    assert Within(db.commits, db.commits[CommitHash(sha, c)].parent, db.commits[CommitHash(sha, c)].uri);
  }

  lemma CommitTxKeepsLocal(sha: string -> string, db: Db<Content>, branch: string, c: Commit<Content>)
    requires IsDigest(sha) && CollisionFree(sha) && Linked(db) && Addressed(sha, db.commits) && SeparableFields(c)
    requires Known(db.commits, c.parent) && Known(db.commits, c.parent2)
    requires Local(db) && Within(db.commits, c.parent, c.uri) && Within(db.commits, c.parent2, c.uri)
    requires c.parent == "" && CommitHash(sha, c) in db.commits ==> db.commits[CommitHash(sha, c)].uri == c.uri
    ensures Local(CommitTx(sha, db, branch, c))
  {
    var hash := CommitHash(sha, c);
    if hash !in db.commits {
      AppendKeepsLocal(db, hash, c);
    } else if c.parent != "" {
      TakenHashSameUri(sha, db, c);
    }
  }

  lemma PendingStaysLocal(commits: map<string, Commit<Content>>, commits': map<string, Commit<Content>>, p: Pending)
    requires "" !in commits' && Grows(commits, commits') && StillKnown(commits, p) && PendingLocal(commits, p)
    ensures PendingLocal(commits', p)
  {
  }

  lemma ReadIsLocal(sha: string -> string, s: Sys, a: Action)
    requires !a.Put? && !a.Transact? && Inv(s) && LocalInv(s) && Read(sha, s, a).Some?
    ensures PendingLocal(s.db.commits, Read(sha, s, a).value)
  {
    if (a.ReadFrom? || a.ReadSource?) && a.id in s.pending {
      assert PendingLocal(s.db.commits, s.pending[a.id]);
    }
    if a.ReadFrom? && a.id in s.pending && s.pending[a.id].MergeHasInto? {
      assert (s.pending[a.id].uri, s.pending[a.id].from).0 == s.pending[a.id].uri;
    }
    if a.ReadForCommit? || a.ReadInto? || a.ReadForBranch? {
      var branch := match a
        case ReadForCommit(_, _, b, _, _, _) => b
        case ReadInto(_, _, b, _, _, _) => b
        case ReadForBranch(_, _, _, b) => b;
      assert (a.uri, branch).0 == a.uri;
    }
  }

  lemma TxKeepsLocal(sha: string -> string, db: Db<Content>, p: Pending)
    requires IsDigest(sha) && CollisionFree(sha) && Linked(db) && Addressed(sha, db.commits) && Local(db)
    requires IsReady(p) && StillKnown(db.commits, p) && CarriesSeparable(p) && PendingLocal(db.commits, p)
    requires p.CommitReady? && p.commit.parent == "" && CommitHash(sha, p.commit) in db.commits ==>
      db.commits[CommitHash(sha, p.commit)].uri == p.commit.uri
    ensures Local(AfterTx(sha, db, p))
  {
    if p.CommitReady? {
      CommitTxKeepsLocal(sha, db, p.branch, p.commit);
    }
  }

  lemma SharedRootPointsElsewhere(sha: string -> string, db: Db<Content>, branch: string, c: Commit<Content>)
    requires CommitHash(sha, c) in db.commits && db.commits[CommitHash(sha, c)].uri != c.uri
    ensures !Local(CommitTx(sha, db, branch, c))
  {
  }

  lemma StepKeepsLocal(sha: string -> string, s: Sys, a: Action)
    requires IsDigest(sha) && CollisionFree(sha) && Inv(s) && AddressInv(sha, s) && LocalInv(s)
    requires !SharesRoot(sha, s, a)
    ensures LocalInv(Step(sha, s, a))
  {
    var s' := Step(sha, s, a);
    if a.Transact? {
      if a.id in s.pending && IsReady(s.pending[a.id]) {
        assert "" !in s'.db.commits && Grows(s.db.commits, s'.db.commits) by {
          StepKeepsInv(sha, s, a);
        }
        TxKeepsLocal(sha, s.db, s.pending[a.id]);
        forall id | id in s.pending ensures PendingLocal(s'.db.commits, s.pending[id]) {
          PendingStaysLocal(s.db.commits, s'.db.commits, s.pending[id]);
        }
      }
    } else if !a.Put? && Read(sha, s, a).Some? {
      ReadIsLocal(sha, s, a);
    }
  }

  // Locality is kept by a step of any interleaving exactly when the step is not a
  // root commit whose hash already exists under another uri.
  lemma LocalityBreaksOnlyAtSharedRoots(sha: string -> string, s: Sys, a: Action)
    requires IsDigest(sha) && CollisionFree(sha) && Inv(s) && AddressInv(sha, s) && LocalInv(s)
    ensures LocalInv(Step(sha, s, a)) <==> !SharesRoot(sha, s, a)
  {
    if SharesRoot(sha, s, a) {
      SharedRootPointsElsewhere(sha, s.db, s.pending[a.id].branch, s.pending[a.id].commit);
    } else {
      StepKeepsLocal(sha, s, a);
    }
  }

  lemma RunOneMore(sha: string -> string, acts: seq<Action>, a: Action)
    ensures Run(sha, acts + [a]) == Step(sha, Run(sha, acts), a)
  {
  }

  // Two root commits, one after the other, under the uris u and v.
  function TwoRoots(c: Content, d: Content, author: string, message: string): seq<Action> {
    [ReadForCommit(0, "u", MAIN, c, author, message), Transact(0), ReadForCommit(1, "v", MAIN, d, author, message), Transact(1)]
  }

  lemma TwoMoreSteps(sha: string -> string, acts: seq<Action>, k: nat)
    requires k + 2 <= |acts|
    ensures Run(sha, acts[..k + 2]) == Step(sha, Step(sha, Run(sha, acts[..k]), acts[k]), acts[k + 1])
  {
    assert acts[..k + 1] == acts[..k] + [acts[k]] && acts[..k + 2] == acts[..k + 1] + [acts[k + 1]];
    RunOneMore(sha, acts[..k], acts[k]);
    RunOneMore(sha, acts[..k + 1], acts[k + 1]);
  }

  lemma FourSteps(sha: string -> string, acts: seq<Action>)
    requires |acts| == 4
    ensures Run(sha, acts) == Step(sha, Step(sha, Step(sha, Step(sha, INIT, acts[0]), acts[1]), acts[2]), acts[3])
  {
    assert acts[..0] == [] && acts[..4] == acts;
    TwoMoreSteps(sha, acts, 0);
    TwoMoreSteps(sha, acts, 2);
  }

  // With one version they share u's row.
  lemma RootsOfOneVersionShareARow(sha: string -> string, c: Content, d: Content, author: string, message: string)
    requires VersionHash(sha, c) == VersionHash(sha, d)
    ensures var db := Run(sha, TwoRoots(c, d, author, message)).db;
      && ("v", MAIN) in db.refs && db.refs[("v", MAIN)] in db.commits
      && db.commits[db.refs[("v", MAIN)]].uri == "u" && db.commits[db.refs[("v", MAIN)]].content == c
      && "v" in db.prompts && db.prompts["v"].content == d
  {
    var a0, a2 := ReadForCommit(0, "u", MAIN, c, author, message), ReadForCommit(1, "v", MAIN, d, author, message);
    FourSteps(sha, TwoRoots(c, d, author, message));
    var s2 := Step(sha, Step(sha, INIT, a0), Transact(0));
    var u := NewCommit(sha, INIT.db, "u", MAIN, c, author, message);
    assert s2.db == CommitTx(sha, INIT.db, MAIN, u);
    assert s2.db.commits == map[CommitHash(sha, u) := u] && s2.db.refs == map[("u", MAIN) := CommitHash(sha, u)];
  }

  // Two root commits with one content, author and message under different uris
  // share a row, so the second uri's branch points into the first uri.
  lemma SharedRootBreaksLocality(sha: string -> string, content: Content, author: string, message: string)
    ensures !Local(Run(sha, TwoRoots(content, content, author, message)).db)
  {
    RootsOfOneVersionShareARow(sha, content, content, author, message);
    assert ("v", MAIN).0 == "v";
  }

  lemma {:induction false} LocalOverRuns(sha: string -> string, acts: seq<Action>)
    requires IsDigest(sha) && CollisionFree(sha)
    requires forall k :: 0 <= k < |acts| ==> !SharesRoot(sha, Run(sha, acts[..k]), acts[k])
    ensures LocalInv(Run(sha, acts))
  {
    if acts != [] {
      var n := |acts| - 1;
      var init := acts[..n];
      assert forall k :: 0 <= k < n ==> init[..k] == acts[..k];
      LocalOverRuns(sha, init);
      EveryRunIsAddressed(sha, init);
      LocalityBreaksOnlyAtSharedRoots(sha, Run(sha, init), acts[n]);
    }
  }

  // Where every ref stays in its uri, a ref resolves exactly when it is a branch of
  // the uri or the hash of one of its commits, and always to a commit of that uri.
  lemma ResolveStaysInItsUri(db: Db<Content>, uri: string, ref: string)
    requires Linked(db) && Local(db)
    ensures var r := Resolve(db, uri, ref);
      && (r.Done? <==> (uri, ref) in db.refs || (ref in db.commits && db.commits[ref].uri == uri))
      && (!r.Done? ==> r == NotFound)
      && (r.Done? ==> r.value.0 in db.commits && r.value.1 == db.commits[r.value.0] && r.value.1.uri == uri)
  {
  }

  // ---- the served row --------------------------------------------------------

  // Not a Put, and of a content from the pool.
  ghost predicate OrdinaryStep(pool: iset<Content>, a: Action) {
    !a.Put? && (a.ReadForCommit? ==> a.content in pool)
  }

  ghost predicate OrdinaryRun(pool: iset<Content>, acts: seq<Action>) {
    forall k :: 0 <= k < |acts| ==> OrdinaryStep(pool, acts[k])
  }

  // A content of the pool under its own version.
  ghost predicate FromPool(sha: string -> string, pool: iset<Content>, c: Commit<Content>) {
    c.content in pool && c.versionHash == VersionHash(sha, c.content)
  }

  ghost predicate RowsFromPool(sha: string -> string, pool: iset<Content>, commits: map<string, Commit<Content>>) {
    forall h :: h in commits ==> FromPool(sha, pool, commits[h])
  }

  ghost predicate ReadyFromPool(sha: string -> string, pool: iset<Content>, pending: map<nat, Pending>) {
    forall id :: id in pending && pending[id].CommitReady? ==> FromPool(sha, pool, pending[id].commit)
  }

  ghost predicate PoolInv(sha: string -> string, pool: iset<Content>, s: Sys) {
    RowsFromPool(sha, pool, s.db.commits) && ReadyFromPool(sha, pool, s.pending)
  }

  lemma ReadIsFromPool(sha: string -> string, pool: iset<Content>, s: Sys, a: Action)
    requires PoolInv(sha, pool, s) && OrdinaryStep(pool, a)
    requires !a.Transact? && Read(sha, s, a).Some? && Read(sha, s, a).value.CommitReady?
    ensures FromPool(sha, pool, Read(sha, s, a).value.commit)
  {
  }

  lemma TxKeepsPool(sha: string -> string, pool: iset<Content>, db: Db<Content>, p: Pending)
    requires RowsFromPool(sha, pool, db.commits) && IsReady(p) && (p.CommitReady? ==> FromPool(sha, pool, p.commit))
    ensures RowsFromPool(sha, pool, AfterTx(sha, db, p).commits)
  {
  }

  lemma StepKeepsPool(sha: string -> string, pool: iset<Content>, s: Sys, a: Action)
    requires PoolInv(sha, pool, s) && OrdinaryStep(pool, a)
    ensures PoolInv(sha, pool, Step(sha, s, a))
  {
    if !a.Transact? {
      if Read(sha, s, a).Some? && Read(sha, s, a).value.CommitReady? {
        ReadIsFromPool(sha, pool, s, a);
      }
    } else if a.id in s.pending && IsReady(s.pending[a.id]) {
      TxKeepsPool(sha, pool, s.db, s.pending[a.id]);
    }
  }

  // A commit transaction on main leaves the served row equal to main's commit
  // exactly when the hash is fresh or its row already carries the same content.
  lemma CommitServesExactly(sha: string -> string, db: Db<Content>, c: Commit<Content>)
    requires ServedIsMain(db)
    ensures var hash := CommitHash(sha, c);
      ServedIsMain(CommitTx(sha, db, MAIN, c)) <==>
        (hash in db.commits ==> db.commits[hash].content == c.content && db.commits[hash].versionHash == c.versionHash)
  {
  }

  lemma CommitTxKeepsServed(sha: string -> string, pool: iset<Content>, db: Db<Content>, branch: string, c: Commit<Content>)
    requires CollisionFree(sha) && Unambiguous(pool) && Addressed(sha, db.commits) && RowsFromPool(sha, pool, db.commits)
    requires ServedIsMain(db) && SeparableFields(c) && FromPool(sha, pool, c)
    ensures ServedIsMain(CommitTx(sha, db, branch, c))
  {
    var hash := CommitHash(sha, c);
    if hash in db.commits {
      TakenHashSameFields(sha, db.commits, c);
      VersionIdentifies(sha, pool, db.commits[hash].content, c.content);
    }
    if branch == MAIN {
      CommitServesExactly(sha, db, c);
    }
  }

  lemma InsertRefKeepsServed(db: Db<Content>, uri: string, name: string, src: string)
    requires ServedIsMain(db) && InsertRef(db, uri, name, src).Done?
    ensures ServedIsMain(InsertRef(db, uri, name, src).value)
  {
  }

  lemma SetTxKeepsServed(db: Db<Content>, uri: string, branch: string, hash: string, row: Row<Content>)
    requires ServedIsMain(db) && hash in db.commits
    requires db.commits[hash].content == row.content && db.commits[hash].versionHash == row.versionHash
    ensures ServedIsMain(SetTx(db, uri, branch, hash, row))
  {
  }

  lemma TxKeepsServed(sha: string -> string, pool: iset<Content>, db: Db<Content>, p: Pending)
    requires CollisionFree(sha) && Unambiguous(pool) && Addressed(sha, db.commits) && RowsFromPool(sha, pool, db.commits)
    requires ServedIsMain(db) && IsReady(p) && StillKnown(db.commits, p) && CarriesSeparable(p)
    requires p.CommitReady? ==> FromPool(sha, pool, p.commit)
    ensures ServedIsMain(AfterTx(sha, db, p))
  {
    match p {
      case CommitReady(branch, c) => CommitTxKeepsServed(sha, pool, db, branch, c);
      case BranchReady(uri, name, src) =>
        if InsertRef(db, uri, name, src).Done? {
          InsertRefKeepsServed(db, uri, name, src);
        }
      case SetReady(uri, branch, hash, row) => SetTxKeepsServed(db, uri, branch, hash, row);
    }
  }

  lemma StepKeepsServed(sha: string -> string, pool: iset<Content>, s: Sys, a: Action)
    requires CollisionFree(sha) && Unambiguous(pool) && Inv(s) && AddressInv(sha, s) && PoolInv(sha, pool, s)
    requires ServedIsMain(s.db) && OrdinaryStep(pool, a)
    ensures ServedIsMain(Step(sha, s, a).db)
  {
    if a.Transact? && a.id in s.pending && IsReady(s.pending[a.id]) {
      TxKeepsServed(sha, pool, s.db, s.pending[a.id]);
    }
  }

  // Over every interleaving, stale reads included, any served row is the content
  // and version of the commit its main branch points at, as long as no two different
  // contents committed in the run share a version input.
  lemma {:induction false} ServedRowIsMainCommit(sha: string -> string, pool: iset<Content>, acts: seq<Action>)
    requires IsDigest(sha) && CollisionFree(sha) && Unambiguous(pool) && OrdinaryRun(pool, acts)
    ensures ServedIsMain(Run(sha, acts).db) && PoolInv(sha, pool, Run(sha, acts))
  {
    if acts != [] {
      var init, a := acts[..|acts| - 1], acts[|acts| - 1];
      ServedRowIsMainCommit(sha, pool, init);
      EveryRunIsAddressed(sha, init);
      StepKeepsPool(sha, pool, Run(sha, init), a);
      StepKeepsServed(sha, pool, Run(sha, init), a);
    }
  }

  // Two contents with one version input, committed as roots under two uris, share a
  // row, and the second uri serves what its main commit does not carry.
  lemma TwinsMisserve(sha: string -> string, c: Content, d: Content, author: string, message: string)
    requires c != d && HashInput(c.template, c.slots) == HashInput(d.template, d.slots)
    ensures !ServedIsMain(Run(sha, TwoRoots(c, d, author, message)).db)
  {
    RootsOfOneVersionShareARow(sha, c, d, author, message);
  }

  // So a pool of contents is served rightly in every run exactly when no two of them
  // share a version input.
  lemma ServedRightlyIffUnambiguous(sha: string -> string, pool: iset<Content>)
    requires IsDigest(sha) && CollisionFree(sha)
    ensures (forall acts :: OrdinaryRun(pool, acts) ==> ServedIsMain(Run(sha, acts).db)) <==> Unambiguous(pool)
  {
    if Unambiguous(pool) {
      forall acts | OrdinaryRun(pool, acts) ensures ServedIsMain(Run(sha, acts).db) {
        ServedRowIsMainCommit(sha, pool, acts);
      }
    } else {
      var c, d :| c in pool && d in pool && HashInput(c.template, c.slots) == HashInput(d.template, d.slots) && c != d;
      TwinsMisserve(sha, c, d, "", "");
      assert OrdinaryRun(pool, TwoRoots(c, d, "", ""));
    }
  }

  // Validated contents are such a pool unless slots repeat: this is the smallest run
  // of two validated contents that misserves.
  lemma RepeatedSlotMisserves(sha: string -> string, author: string, message: string)
    ensures var c, d := Content("{a}\0a", ["a"]), Content("{a}", ["a", "a"]);
      && Matched(c.template, c.slots) && Matched(d.template, d.slots)
      && !ServedIsMain(Run(sha, TwoRoots(c, d, author, message)).db)
  {
    var c, d := Content("{a}\0a", ["a"]), Content("{a}", ["a", "a"]);
    RepeatedSlotCollides();
    assert d.slots != c.slots;
    TwinsMisserve(sha, c, d, author, message);
  }
}
