// The commit graph: three tables, the transactions on them, and what serialised
// operations do to branch histories (internal/store/store.go).
module CommitGraph {
  import opened Outcomes
  import opened Text
  import opened Placeholders
  import opened Encodings

  const MAIN: string := "main"

  datatype Content = Content(template: string, slots: seq<string>)

  // Empty text stands for an absent parent. C is how the content columns are
  // represented: plain content, or sealed columns.
  datatype Commit<C> = Commit(
    uri: string, content: C, versionHash: string, parent: string, parent2: string, author: string, message: string)

  datatype Row<C> = Row(content: C, versionHash: string)

  // commits is append-only, refs maps (uri, branch) to a tip, prompts is the served
  // HEAD of each uri.
  datatype Db<C> = Db(commits: map<string, Commit<C>>, refs: map<(string, string), string>, prompts: map<string, Row<C>>)

  datatype Outcome<T> = Done(value: T) | NotFound | BranchNotFound | Conflict

  function VersionHash(sha: string -> string, c: Content): string {
    sha(HashInput(c.template, c.slots))
  }

  // No two contents of the pool share a version input.
  ghost predicate Unambiguous(pool: iset<Content>) {
    forall c, d :: c in pool && d in pool && HashInput(c.template, c.slots) == HashInput(d.template, d.slots) ==> c == d
  }

  lemma VersionIdentifies(sha: string -> string, pool: iset<Content>, c: Content, d: Content)
    requires CollisionFree(sha) && Unambiguous(pool) && c in pool && d in pool && VersionHash(sha, c) == VersionHash(sha, d)
    ensures c == d
  {
  }

  // Validated, the first slot not repeated.
  ghost predicate Publishable(c: Content) {
    Matched(c.template, c.slots) && !RepeatsFirst(c.slots)
  }

  lemma PublishableIsUnambiguous()
    ensures Unambiguous(iset c: Content | Publishable(c))
  {
    var pool := iset c: Content | Publishable(c);
    forall c, d | c in pool && d in pool && HashInput(c.template, c.slots) == HashInput(d.template, d.slots) ensures c == d {
      HashInputDetermines(c.template, c.slots, d.template, d.slots);
    }
  }

  function CommitHash<C>(sha: string -> string, c: Commit<C>): string {
    sha(CommitInput(c.versionHash, c.parent, c.parent2, c.author, c.message))
  }

  // The identity of a version digests its template and slots, that of a commit its five
  // fields, each list in order and cut by NUL.
  lemma HashesDigest<C>(sha: string -> string, content: Content, c: Commit<C>)
    requires NulFree(content.template) && Words(content.slots)
    requires NulFree(c.versionHash) && NulFree(c.parent) && NulFree(c.parent2) && NulFree(c.author) && NulFree(c.message)
    ensures exists x ::
      VersionHash(sha, content) == sha(x) && Split(x, '\0') == [content.template] + if content.slots == [] then [""] else content.slots
    ensures exists x ::
      CommitHash(sha, c) == sha(x) && Split(x, '\0') == [c.versionHash, c.parent, c.parent2, c.author, c.message, ""]
  {
    HashInputLists(content.template, content.slots);
    CommitInputLists(c.versionHash, c.parent, c.parent2, c.author, c.message);
  }

  function Tip<C>(db: Db<C>, uri: string, branch: string): Option<string> {
    if (uri, branch) in db.refs then Some(db.refs[(uri, branch)]) else None
  }

  // ---- transactions ----------------------------------------------------------

  // Insert the commit unless its hash is taken, move the branch to it, and on main
  // write the served row.
  function CommitTx<C>(sha: string -> string, db: Db<C>, branch: string, c: Commit<C>): Db<C> {
    var hash := CommitHash(sha, c);
    Db(if hash in db.commits then db.commits else db.commits[hash := c],
       db.refs[(c.uri, branch) := hash],
       if branch == MAIN then db.prompts[c.uri := Row(c.content, c.versionHash)] else db.prompts)
  }

  // A plain insert: it fails when the branch exists.
  function InsertRef<C>(db: Db<C>, uri: string, name: string, src: string): Outcome<Db<C>> {
    if (uri, name) in db.refs then Conflict else Done(db.(refs := db.refs[(uri, name) := src]))
  }

  // Point a branch at a commit, and on main write the served row.
  function SetTx<C>(db: Db<C>, uri: string, branch: string, hash: string, row: Row<C>): Db<C> {
    Db(db.commits,
       db.refs[(uri, branch) := hash],
       if branch == MAIN then db.prompts[uri := row] else db.prompts)
  }

  // ---- whole operations, run one at a time -----------------------------------

  function NewCommit(sha: string -> string, db: Db<Content>, uri: string, branch: string, content: Content,
                     author: string, message: string): Commit<Content> {
    var parent := if (uri, branch) in db.refs then db.refs[(uri, branch)] else "";
    Commit(uri, content, VersionHash(sha, content), parent, "", author, message)
  }

  function CommitOp(sha: string -> string, db: Db<Content>, uri: string, branch: string, content: Content,
                    author: string, message: string): Db<Content> {
    CommitTx(sha, db, branch, NewCommit(sha, db, uri, branch, content, author, message))
  }

  function BranchOp(db: Db<Content>, uri: string, name: string, from: string): Outcome<Db<Content>> {
    if (uri, from) !in db.refs then BranchNotFound else InsertRef(db, uri, name, db.refs[(uri, from)])
  }

  function MergeMessage(message: string, from: string, into: string): string {
    if message == "" then "merge " + from + " into " + into else message
  }

  // The merge commit takes the content of from's tip.
  function MergeCommit(sha: string -> string, db: Db<Content>, uri: string, into: string, from: string,
                       author: string, message: string): Outcome<Commit<Content>> {
    if (uri, into) !in db.refs || (uri, from) !in db.refs then BranchNotFound
    else
      var src := db.refs[(uri, from)];
      if src !in db.commits then NotFound
      else
        var content := db.commits[src].content;
        Done(Commit(uri, content, VersionHash(sha, content), db.refs[(uri, into)], src, author, MergeMessage(message, from, into)))
  }

  function MergeOp(sha: string -> string, db: Db<Content>, uri: string, into: string, from: string,
                   author: string, message: string): Outcome<Db<Content>> {
    match MergeCommit(sha, db, uri, into, from, author, message)
    case Done(c) => Done(CommitTx(sha, db, into, c))
    case NotFound => NotFound
    case BranchNotFound => BranchNotFound
    case Conflict => Conflict
  }

  // The commit a hash names, provided it belongs to the uri.
  function CommitOf<C>(db: Db<C>, uri: string, hash: string): Outcome<Commit<C>> {
    if hash !in db.commits || db.commits[hash].uri != uri then NotFound else Done(db.commits[hash])
  }

  function SetBranchOp(db: Db<Content>, uri: string, branch: string, hash: string): Outcome<Db<Content>> {
    match CommitOf(db, uri, hash)
    case Done(c) => Done(SetTx(db, uri, branch, hash, Row(c.content, c.versionHash)))
    case NotFound => NotFound
    case BranchNotFound => BranchNotFound
    case Conflict => Conflict
  }

  // A ref is a branch name, or else a commit hash of this uri.
  function Resolve<C>(db: Db<C>, uri: string, ref: string): Outcome<(string, Commit<C>)> {
    if (uri, ref) in db.refs then
      var h := db.refs[(uri, ref)];
      if h in db.commits then Done((h, db.commits[h])) else NotFound
    else
      match CommitOf(db, uri, ref)
      case Done(c) => Done((ref, c))
      case NotFound => NotFound
      case BranchNotFound => BranchNotFound
      case Conflict => Conflict
  }

  // ---- links and order -------------------------------------------------------

  ghost predicate Known<C>(commits: map<string, Commit<C>>, h: string) {
    h == "" || h in commits
  }

  // Every ref and both parent links name existing commits; no hash is empty or
  // holds NUL, and only a commit with a first parent has a second.
  ghost predicate Linked<C>(db: Db<C>) {
    && (forall h :: h in db.commits ==> h != "" && NulFree(h))
    && (forall r :: r in db.refs ==> db.refs[r] in db.commits)
    && (forall h {:trigger db.commits[h].parent} :: h in db.commits ==> Known(db.commits, db.commits[h].parent))
    && (forall h {:trigger db.commits[h].parent2} :: h in db.commits ==> Known(db.commits, db.commits[h].parent2))
    && (forall h {:trigger db.commits[h].parent2} :: h in db.commits && db.commits[h].parent == "" ==> db.commits[h].parent2 == "")
  }

  // Every commit ranks above its parents.
  ghost predicate Ranked<C>(commits: map<string, Commit<C>>, rank: map<string, nat>) {
    && rank.Keys == commits.Keys
    && (forall h {:trigger commits[h].parent} :: h in commits && commits[h].parent in commits ==>
          rank[commits[h].parent] < rank[h])
    && (forall h {:trigger commits[h].parent2} :: h in commits && commits[h].parent2 in commits ==>
          rank[commits[h].parent2] < rank[h])
  }

  ghost predicate Acyclic<C>(commits: map<string, Commit<C>>) {
    exists rank :: Ranked(commits, rank)
  }

  // Every row sits under the digest of its own fields, and neither its version nor its
  // parents hold NUL.
  ghost predicate Addressed<C>(sha: string -> string, commits: map<string, Commit<C>>) {
    forall h :: h in commits ==> h == CommitHash(sha, commits[h]) && SeparableFields(commits[h])
  }

  ghost predicate SeparableFields<C>(c: Commit<C>) {
    NulFree(c.versionHash) && NulFree(c.parent) && NulFree(c.parent2)
  }

  // Under collision-free digests, a taken hash holds a row with the same version and
  // parents, and with the same author and message unless an author holds NUL.
  lemma TakenHashSameFields<C>(sha: string -> string, commits: map<string, Commit<C>>, c: Commit<C>)
    requires CollisionFree(sha) && Addressed(sha, commits) && SeparableFields(c) && CommitHash(sha, c) in commits
    ensures var d := commits[CommitHash(sha, c)];
      && d.versionHash == c.versionHash && d.parent == c.parent && d.parent2 == c.parent2
      && (NulFree(d.author) && NulFree(c.author) ==> d.author == c.author && d.message == c.message)
  {
    var d := commits[CommitHash(sha, c)];
    CommitInputDeterminesLinks(d.versionHash, d.parent, d.parent2, d.author, d.message,
                               c.versionHash, c.parent, c.parent2, c.author, c.message);
    if NulFree(d.author) && NulFree(c.author) {
      CommitInputDetermines(d.versionHash, d.parent, d.parent2, d.author, d.message,
                            c.versionHash, c.parent, c.parent2, c.author, c.message);
    }
  }

  // Rows are only ever added.
  ghost predicate Grows<C>(commits: map<string, Commit<C>>, commits': map<string, Commit<C>>) {
    forall h :: h in commits ==> h in commits' && commits'[h] == commits[h]
  }

  lemma CommitTxGrows<C>(sha: string -> string, db: Db<C>, branch: string, c: Commit<C>)
    ensures Grows(db.commits, CommitTx(sha, db, branch, c).commits)
  {
  }

  // A commit whose parents exist keeps links and order, collisions or not.
  lemma CommitTxKeepsLinks<C>(sha: string -> string, db: Db<C>, branch: string, c: Commit<C>)
    requires IsDigest(sha) && Linked(db) && Acyclic(db.commits)
    requires Known(db.commits, c.parent) && Known(db.commits, c.parent2) && (c.parent == "" ==> c.parent2 == "")
    ensures Linked(CommitTx(sha, db, branch, c)) && Acyclic(CommitTx(sha, db, branch, c).commits)
  {
    if CommitHash(sha, c) !in db.commits {
      AppendKeepsOrder(db, CommitHash(sha, c), c);
    }
  }

  // A row under a fresh hash can rank above its parents: no row points at it yet.
  lemma AppendKeepsOrder<C>(db: Db<C>, hash: string, c: Commit<C>)
    requires Linked(db) && Acyclic(db.commits) && hash !in db.commits && hash != ""
    requires Known(db.commits, c.parent) && Known(db.commits, c.parent2)
    ensures Acyclic(db.commits[hash := c])
  {
    var rank :| Ranked(db.commits, rank);
    var above := (if c.parent in rank then rank[c.parent] else 0) + (if c.parent2 in rank then rank[c.parent2] else 0);
    var commits', rank' := db.commits[hash := c], rank[hash := above + 1];
    forall h {:trigger commits'[h].parent} | h in commits' && commits'[h].parent in commits'
      ensures rank'[commits'[h].parent] < rank'[h]
    {
      assert h != hash ==> commits'[h] == db.commits[h] && db.commits[h].parent in db.commits;
    }
    forall h {:trigger commits'[h].parent2} | h in commits' && commits'[h].parent2 in commits'
      ensures rank'[commits'[h].parent2] < rank'[h]
    {
      assert h != hash ==> commits'[h] == db.commits[h] && db.commits[h].parent2 in db.commits;
    }
    assert Ranked(commits', rank');
  }

  // ---- logs ------------------------------------------------------------------

  // hs is the first-parent chain from h back to a root, newest first.
  ghost predicate IsLog<C>(commits: map<string, Commit<C>>, h: string, hs: seq<string>) {
    && hs != [] && hs[0] == h
    && (forall k :: 0 <= k < |hs| ==> hs[k] in commits)
    && (forall k, l {:trigger hs[k], hs[l]} :: 0 <= k && l == k + 1 < |hs| ==> commits[hs[k]].parent == hs[l])
    && commits[hs[|hs| - 1]].parent == ""
  }

  lemma LogTail<C>(commits: map<string, Commit<C>>, h: string, hs: seq<string>)
    requires IsLog(commits, h, hs) && |hs| > 1
    ensures commits[h].parent == hs[1] && IsLog(commits, hs[1], hs[1..])
  {
  }

  lemma LogStep<C>(commits: map<string, Commit<C>>, h: string, hs: seq<string>, k: nat)
    requires IsLog(commits, h, hs) && k < |hs|
    ensures hs[k] in commits && commits[hs[k]].parent == if k + 1 < |hs| then hs[k + 1] else ""
  {
  }

  lemma LogExtends<C>(commits: map<string, Commit<C>>, h: string, hs: seq<string>)
    requires h in commits && (if hs == [] then commits[h].parent == "" else IsLog(commits, commits[h].parent, hs))
    ensures IsLog(commits, h, [h] + hs)
  {
  }

  lemma {:induction false} LogIsUnique<C>(commits: map<string, Commit<C>>, h: string, x: seq<string>, y: seq<string>)
    requires "" !in commits && IsLog(commits, h, x) && IsLog(commits, h, y)
    ensures x == y
    decreases |x|
  {
    if |x| > 1 {
      LogTail(commits, h, x);
    }
    if |y| > 1 {
      LogTail(commits, h, y);
    }
    if |x| > 1 && |y| > 1 {
      LogIsUnique(commits, x[1], x[1..], y[1..]);
      assert x == [x[0]] + x[1..] && y == [y[0]] + y[1..];
    } else {
      assert |x| == 1 && |y| == 1 && x == [h] && y == [h];
    }
  }

  // Along a log ranks fall, so it repeats no commit.
  lemma {:induction false} LogFalls<C>(commits: map<string, Commit<C>>, rank: map<string, nat>, h: string, hs: seq<string>)
    requires Ranked(commits, rank) && IsLog(commits, h, hs)
    ensures forall k :: 0 < k < |hs| ==> rank[hs[k]] < rank[h]
    ensures Distinct(hs)
    decreases |hs|
  {
    if |hs| > 1 {
      LogTail(commits, h, hs);
      LogFalls(commits, rank, hs[1], hs[1..]);
      assert forall k :: 0 < k < |hs| ==> hs[k] == hs[1..][k - 1];
    }
  }

  lemma {:induction false} LogExists<C>(commits: map<string, Commit<C>>, rank: map<string, nat>, h: string) returns (hs: seq<string>)
    requires Ranked(commits, rank) && h in commits
    requires forall g {:trigger commits[g].parent} :: g in commits ==> Known(commits, commits[g].parent)
    ensures IsLog(commits, h, hs)
    decreases rank[h]
  {
    if commits[h].parent == "" {
      hs := [];
    } else {
      hs := LogExists(commits, rank, commits[h].parent);
    }
    LogExtends(commits, h, hs);
    hs := [h] + hs;
  }

  lemma TheLog<C>(db: Db<C>, uri: string, branch: string) returns (hs: seq<string>)
    requires Linked(db) && Acyclic(db.commits) && (uri, branch) in db.refs
    ensures IsLog(db.commits, db.refs[(uri, branch)], hs)
  {
    var rank :| Ranked(db.commits, rank);
    hs := LogExists(db.commits, rank, db.refs[(uri, branch)]);
  }

  // Every branch has exactly one log: non-empty, without a missing or repeated commit.
  lemma EveryBranchHasOneLog<C>(db: Db<C>, uri: string, branch: string)
    requires Linked(db) && Acyclic(db.commits) && (uri, branch) in db.refs
    ensures exists hs :: IsLog(db.commits, db.refs[(uri, branch)], hs)
    ensures forall hs :: IsLog(db.commits, db.refs[(uri, branch)], hs) ==> hs != [] && Distinct(hs)
    ensures forall x, y :: IsLog(db.commits, db.refs[(uri, branch)], x) && IsLog(db.commits, db.refs[(uri, branch)], y) ==> x == y
  {
    var rank :| Ranked(db.commits, rank);
    var tip := db.refs[(uri, branch)];
    var log := TheLog(db, uri, branch);
    forall hs | IsLog(db.commits, tip, hs) ensures hs == log && Distinct(hs) {
      LogFalls(db.commits, rank, tip, hs);
      LogIsUnique(db.commits, tip, hs, log);
    }
  }

  // ---- what serialised operations do to logs ---------------------------------

  ghost predicate Sound(sha: string -> string, db: Db<Content>) {
    IsDigest(sha) && CollisionFree(sha) && Linked(db) && Acyclic(db.commits) && Addressed(sha, db.commits)
  }

  lemma CommitTxKeepsAddresses<C>(sha: string -> string, db: Db<C>, branch: string, c: Commit<C>)
    requires Addressed(sha, db.commits) && SeparableFields(c)
    ensures Addressed(sha, CommitTx(sha, db, branch, c).commits)
  {
  }

  lemma CommitTxKeepsSound(sha: string -> string, db: Db<Content>, branch: string, c: Commit<Content>)
    requires Sound(sha, db) && SeparableFields(c)
    requires Known(db.commits, c.parent) && Known(db.commits, c.parent2) && (c.parent == "" ==> c.parent2 == "")
    ensures Sound(sha, CommitTx(sha, db, branch, c))
  {
    CommitTxKeepsLinks(sha, db, branch, c);
    CommitTxKeepsAddresses(sha, db, branch, c);
  }

  // The log of a branch: empty when the branch does not exist.
  ghost predicate BranchLog(db: Db<Content>, uri: string, branch: string, hs: seq<string>) {
    if (uri, branch) in db.refs then IsLog(db.commits, db.refs[(uri, branch)], hs) else hs == []
  }

  // Appending rows leaves existing logs alone.
  lemma LogSurvives<C>(commits: map<string, Commit<C>>, commits': map<string, Commit<C>>, h: string, hs: seq<string>)
    requires IsLog(commits, h, hs)
    requires Grows(commits, commits')
    ensures IsLog(commits', h, hs)
  {
  }

  lemma CommitTxPrepends(sha: string -> string, db: Db<Content>, branch: string, c: Commit<Content>, before: seq<string>)
    requires Sound(sha, db) && SeparableFields(c)
    requires if before == [] then c.parent == "" else IsLog(db.commits, c.parent, before)
    ensures var db' := CommitTx(sha, db, branch, c);
      && Tip(db', c.uri, branch) == Some(CommitHash(sha, c))
      && IsLog(db'.commits, CommitHash(sha, c), [CommitHash(sha, c)] + before)
  {
    var db' := CommitTx(sha, db, branch, c);
    var hash := CommitHash(sha, c);
    if hash in db.commits {
      TakenHashSameFields(sha, db.commits, c);
    }
    CommitTxGrows(sha, db, branch, c);
    if before != [] {
      LogSurvives(db.commits, db'.commits, c.parent, before);
    }
    LogExtends(db'.commits, hash, before);
  }

  // No commit is lost and every other branch keeps its log.
  ghost predicate OthersKeepTheirLogs(db: Db<Content>, db': Db<Content>, uri: string, branch: string) {
    && Grows(db.commits, db'.commits)
    && (forall u, b, hs :: (u, b) != (uri, branch) && BranchLog(db, u, b, hs) ==> BranchLog(db', u, b, hs))
  }

  lemma CommitTxSparesOthers(sha: string -> string, db: Db<Content>, branch: string, c: Commit<Content>)
    ensures OthersKeepTheirLogs(db, CommitTx(sha, db, branch, c), c.uri, branch)
  {
  }

  // Commit turns its branch's log into the new commit followed by the old log.
  lemma CommitPrependsToItsLog(sha: string -> string, db: Db<Content>, uri: string, branch: string, content: Content,
                               author: string, message: string, before: seq<string>)
    requires Sound(sha, db) && BranchLog(db, uri, branch, before)
    ensures var db' := CommitOp(sha, db, uri, branch, content, author, message);
      var hash := CommitHash(sha, NewCommit(sha, db, uri, branch, content, author, message));
      BranchLog(db', uri, branch, [hash] + before) && OthersKeepTheirLogs(db, db', uri, branch)
  {
    var c := NewCommit(sha, db, uri, branch, content, author, message);
    CommitTxPrepends(sha, db, branch, c, before);
    CommitTxSparesOthers(sha, db, branch, c);
  }

  // Merge does the same, and the new commit's second parent is from's tip, whose
  // content it carries.
  lemma MergePrependsToItsLog(sha: string -> string, db: Db<Content>, uri: string, into: string, from: string,
                              author: string, message: string, before: seq<string>)
    requires Sound(sha, db) && BranchLog(db, uri, into, before)
    ensures var r := MergeOp(sha, db, uri, into, from, author, message);
      && (r.Done? <==> (uri, into) in db.refs && (uri, from) in db.refs)
      && (r.Done? ==>
            var c := MergeCommit(sha, db, uri, into, from, author, message).value;
            && c.parent2 == db.refs[(uri, from)] && c.content == db.commits[c.parent2].content
            && BranchLog(r.value, uri, into, [CommitHash(sha, c)] + before)
            && OthersKeepTheirLogs(db, r.value, uri, into))
  {
    if (uri, into) in db.refs && (uri, from) in db.refs {
      var c := MergeCommit(sha, db, uri, into, from, author, message).value;
      CommitTxPrepends(sha, db, into, c, before);
      CommitTxSparesOthers(sha, db, into, c);
    }
  }

  // Setting a branch to the k-th entry of its log leaves exactly the old log from k on.
  lemma RollbackKeepsTheTail(db: Db<Content>, uri: string, branch: string, before: seq<string>, k: nat)
    requires Linked(db) && (uri, branch) in db.refs && BranchLog(db, uri, branch, before) && k < |before|
    requires db.commits[before[k]].uri == uri
    ensures var r := SetBranchOp(db, uri, branch, before[k]);
      && r.Done? && r.value.commits == db.commits
      && BranchLog(r.value, uri, branch, before[k..])
      && OthersKeepTheirLogs(db, r.value, uri, branch)
  {
  }

  // A new branch starts with its source's log; a branch that exists is left alone.
  lemma BranchSharesItsSourcesLog(db: Db<Content>, uri: string, name: string, from: string, before: seq<string>)
    requires Linked(db) && BranchLog(db, uri, from, before)
    ensures var r := BranchOp(db, uri, name, from);
      && (r.BranchNotFound? <==> before == [])
      && (r.Conflict? <==> before != [] && (uri, name) in db.refs)
      && (r.Done? ==> BranchLog(r.value, uri, name, before) && BranchLog(r.value, uri, from, before)
                      && r.value.prompts == db.prompts && OthersKeepTheirLogs(db, r.value, uri, name))
  {
  }

  // The served row of every uri is what its main branch points at.
  ghost predicate ServedIsMain(db: Db<Content>) {
    forall u :: u in db.prompts ==>
      && (u, MAIN) in db.refs && db.refs[(u, MAIN)] in db.commits
      && var c := db.commits[db.refs[(u, MAIN)]];
         db.prompts[u] == Row(c.content, c.versionHash)
  }

  // Rolling back to the tip before a commit undoes it for every reader of refs and
  // served rows.
  lemma RollbackUndoesCommit(sha: string -> string, db: Db<Content>, uri: string, branch: string, content: Content,
                             author: string, message: string)
    requires Sound(sha, db) && ServedIsMain(db)
    requires (uri, branch) in db.refs && db.commits[db.refs[(uri, branch)]].uri == uri
    requires branch == MAIN ==> uri in db.prompts
    ensures var r := SetBranchOp(CommitOp(sha, db, uri, branch, content, author, message), uri, branch, db.refs[(uri, branch)]);
      r.Done? && r.value.refs == db.refs && r.value.prompts == db.prompts
  {
    var tip := db.refs[(uri, branch)];
    var c := NewCommit(sha, db, uri, branch, content, author, message);
    var row := Row(db.commits[tip].content, db.commits[tip].versionHash);
    CommitTxGrows(sha, db, branch, c);
    SetBackUndoesTx(sha, db, branch, c, row);
    assert branch == MAIN ==> db.prompts[uri] == row;
  }

  lemma SetBackUndoesTx(sha: string -> string, db: Db<Content>, branch: string, c: Commit<Content>, row: Row<Content>)
    requires (c.uri, branch) in db.refs && (branch == MAIN ==> c.uri in db.prompts && db.prompts[c.uri] == row)
    ensures var db' := SetTx(CommitTx(sha, db, branch, c), c.uri, branch, db.refs[(c.uri, branch)], row);
      db'.refs == db.refs && db'.prompts == db.prompts
  {
    PutBack(db.refs, (c.uri, branch), CommitHash(sha, c));
    if branch == MAIN {
      PutBack(db.prompts, c.uri, Row(c.content, c.versionHash));
    }
  }

  lemma PutBack<K, V>(m: map<K, V>, k: K, v: V)
    requires k in m
    ensures m[k := v][k := m[k]] == m
  {
  }

  // ---- idempotence -----------------------------------------------------------

  lemma CommitTxTwice<C>(sha: string -> string, db: Db<C>, branch: string, c: Commit<C>)
    ensures CommitTx(sha, CommitTx(sha, db, branch, c), branch, c) == CommitTx(sha, db, branch, c)
  {
  }

  // A commit is never its own first parent.
  lemma ChildHashDiffers(sha: string -> string, db: Db<Content>, branch: string, c: Commit<Content>, c': Commit<Content>)
    requires Sound(sha, db) && SeparableFields(c) && SeparableFields(c') && Known(db.commits, c.parent) && c.parent2 == ""
    requires c'.parent == CommitHash(sha, c)
    ensures CommitHash(sha, c') != CommitHash(sha, c)
  {
    if CommitHash(sha, c') == CommitHash(sha, c) {
      CommitInputDeterminesLinks(c'.versionHash, c'.parent, c'.parent2, c'.author, c'.message,
                                 c.versionHash, c.parent, c.parent2, c.author, c.message);
      assert c.parent in db.commits;
      TakenHashSameFields(sha, db.commits, c);
    }
  }

  // Committing the same thing again always makes another commit: the first one has
  // become the parent. Only the transaction with explicit parents is idempotent.
  lemma CommitIsNeverIdempotent(sha: string -> string, db: Db<Content>, uri: string, branch: string, content: Content,
                                author: string, message: string)
    requires Sound(sha, db)
    ensures var c := NewCommit(sha, db, uri, branch, content, author, message);
      var db' := CommitOp(sha, db, uri, branch, content, author, message);
      var c' := NewCommit(sha, db', uri, branch, content, author, message);
      && c'.parent == CommitHash(sha, c)
      && CommitHash(sha, c') != CommitHash(sha, c)
      && CommitTx(sha, db', branch, c) == db'
  {
    var c := NewCommit(sha, db, uri, branch, content, author, message);
    var db' := CommitOp(sha, db, uri, branch, content, author, message);
    CommitTxTwice(sha, db, branch, c);
    assert Known(db.commits, c.parent);
    ChildHashDiffers(sha, db, branch, c, NewCommit(sha, db', uri, branch, content, author, message));
  }
}
