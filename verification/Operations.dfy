// The interleaved operations are the serialised ones split into steps: with nothing in
// between they leave the same tables, and over any interleaving what an operation is
// about to write is what it read, step by step (internal/store/store.go).
module Operations {
  import opened Outcomes
  import opened CommitGraph
  import opened Interleaving

  // ---- with nothing in between -----------------------------------------------

  function AfterOp(db: Db<Content>, r: Outcome<Db<Content>>): Db<Content> {
    if r.Done? then r.value else db
  }

  // A commit whose read and transaction follow each other is the serialised commit.
  lemma CommitAlone(sha: string -> string, s: Sys, id: nat, uri: string, branch: string, content: Content,
                    author: string, message: string)
    ensures Step(sha, Step(sha, s, ReadForCommit(id, uri, branch, content, author, message)), Transact(id))
      == Sys(CommitOp(sha, s.db, uri, branch, content, author, message), s.pending - {id})
  {
  }

  lemma BranchAlone(sha: string -> string, s: Sys, id: nat, uri: string, name: string, from: string)
    ensures Step(sha, Step(sha, s, ReadForBranch(id, uri, name, from)), Transact(id))
      == Sys(AfterOp(s.db, BranchOp(s.db, uri, name, from)), s.pending - {id})
  {
  }

  lemma SetAlone(sha: string -> string, s: Sys, id: nat, uri: string, branch: string, hash: string)
    ensures Step(sha, Step(sha, s, ReadForSet(id, uri, branch, hash)), Transact(id))
      == Sys(AfterOp(s.db, SetBranchOp(s.db, uri, branch, hash)), s.pending - {id})
  {
  }

  // So are the four steps of a merge.
  lemma MergeAlone(sha: string -> string, s: Sys, id: nat, uri: string, into: string, from: string, author: string, message: string)
    ensures var s1 := Step(sha, s, ReadInto(id, uri, into, from, author, message));
      var s2 := Step(sha, s1, ReadFrom(id));
      Step(sha, Step(sha, s2, ReadSource(id)), Transact(id))
        == Sys(AfterOp(s.db, MergeOp(sha, s.db, uri, into, from, author, message)), s.pending - {id})
  {
    var s1 := Step(sha, s, ReadInto(id, uri, into, from, author, message));
    var s2 := Step(sha, s1, ReadFrom(id));
    var s3 := Step(sha, s2, ReadSource(id));
    var rest := s.pending - {id};
    if (uri, into) in s.db.refs {
      var p1 := MergeHasInto(uri, into, from, s.db.refs[(uri, into)], author, message);
      assert s1 == Sys(s.db, s.pending[id := p1]);
      if (uri, from) in s.db.refs {
        var p2 := WithSource(p1, s.db.refs[(uri, from)]);
        assert s2 == Sys(s.db, s.pending[id := p2]);
        if p2.src in s.db.commits {
          assert s3 == Sys(s.db, s.pending[id := CommitReady(into, MergeOf(sha, s.db, p2))]);
        } else {
          assert s3 == Sys(s.db, rest);
        }
      } else {
        assert s2 == Sys(s.db, rest) && s3 == Sys(s.db, rest);
      }
    } else {
      assert s1 == Sys(s.db, rest) && s2 == Sys(s.db, rest) && s3 == Sys(s.db, rest);
    }
  }

  // ---- where pending operations come from ------------------------------------

  // The tip of a branch before action i.
  function TipAt(sha: string -> string, acts: seq<Action>, i: nat, uri: string, branch: string): Option<string>
    requires i <= |acts|
  {
    Tip(Run(sha, acts[..i]).db, uri, branch)
  }

  // Action i read the parent of c, the rest of which is what was asked to be committed.
  ghost predicate CommitRead(sha: string -> string, acts: seq<Action>, id: nat, branch: string, c: Commit<Content>, i: nat) {
    && i < |acts| && acts[i] == ReadForCommit(id, c.uri, branch, c.content, c.author, c.message)
    && c.versionHash == VersionHash(sha, c.content) && c.parent2 == ""
    && c.parent == match TipAt(sha, acts, i, c.uri, branch) case Some(h) => h case None => ""
  }

  ghost predicate IntoRead(sha: string -> string, acts: seq<Action>, id: nat, uri: string, into: string, from: string,
                           dst: string, author: string, message: string, i: nat) {
    i < |acts| && acts[i] == ReadInto(id, uri, into, from, author, message) && TipAt(sha, acts, i, uri, into) == Some(dst)
  }

  ghost predicate FromRead(sha: string -> string, acts: seq<Action>, id: nat, uri: string, from: string, src: string, j: nat) {
    j < |acts| && acts[j] == ReadFrom(id) && TipAt(sha, acts, j, uri, from) == Some(src)
  }

  ghost predicate SourceRead(sha: string -> string, acts: seq<Action>, id: nat, src: string, content: Content, k: nat) {
    && k < |acts| && acts[k] == ReadSource(id)
    && src in Run(sha, acts[..k]).db.commits && Run(sha, acts[..k]).db.commits[src].content == content
  }

  // The actions at which a merge read, and what it was asked.
  datatype MergeReads = MergeReads(i: nat, j: nat, k: nat, from: string, message: string)

  // The first parent of c is the tip of the branch at i, the second that of from at j,
  // and its content is the second parent's.
  ghost predicate MergeRead(sha: string -> string, acts: seq<Action>, id: nat, branch: string, c: Commit<Content>, r: MergeReads) {
    && r.i < r.j < r.k
    && IntoRead(sha, acts, id, c.uri, branch, r.from, c.parent, c.author, r.message, r.i)
    && FromRead(sha, acts, id, c.uri, r.from, c.parent2, r.j)
    && SourceRead(sha, acts, id, c.parent2, c.content, r.k)
    && c.versionHash == VersionHash(sha, c.content)
    && c.message == if r.message == "" then "merge " + r.from + " into " + branch else r.message
  }

  ghost predicate BothTipsRead(sha: string -> string, acts: seq<Action>, id: nat, p: Pending, i: nat, j: nat)
    requires p.MergeHasFrom?
  {
    && i < j && IntoRead(sha, acts, id, p.uri, p.into, p.from, p.dst, p.author, p.message, i)
    && FromRead(sha, acts, id, p.uri, p.from, p.src, j)
  }

  ghost predicate BranchRead(sha: string -> string, acts: seq<Action>, id: nat, uri: string, name: string, src: string, i: nat) {
    && i < |acts| && acts[i].ReadForBranch? && acts[i].id == id && acts[i].uri == uri && acts[i].name == name
    && TipAt(sha, acts, i, uri, acts[i].from) == Some(src)
  }

  ghost predicate SetRead(sha: string -> string, acts: seq<Action>, id: nat, uri: string, branch: string, hash: string,
                          row: Row<Content>, i: nat) {
    && i < |acts| && acts[i] == ReadForSet(id, uri, branch, hash)
    && var commits := Run(sha, acts[..i]).db.commits;
       hash in commits && commits[hash].uri == uri && row == Row(commits[hash].content, commits[hash].versionHash)
  }

  // What a pending operation carries is what its own actions read when they ran.
  ghost predicate IsRead(sha: string -> string, acts: seq<Action>, id: nat, p: Pending) {
    match p
    case CommitReady(branch, c) =>
      (exists i :: CommitRead(sha, acts, id, branch, c, i)) || (exists r :: MergeRead(sha, acts, id, branch, c, r))
    case MergeHasInto(uri, into, from, dst, author, message) =>
      exists i :: IntoRead(sha, acts, id, uri, into, from, dst, author, message, i)
    case MergeHasFrom(_, _, _, _, _, _, _) => exists i, j :: BothTipsRead(sha, acts, id, p, i, j)
    case BranchReady(uri, name, src) => exists i :: BranchRead(sha, acts, id, uri, name, src, i)
    case SetReady(uri, branch, hash, row) => exists i :: SetRead(sha, acts, id, uri, branch, hash, row, i)
  }

  lemma SameBefore(acts: seq<Action>, a: Action, i: nat)
    requires i < |acts|
    ensures (acts + [a])[i] == acts[i] && (acts + [a])[..i] == acts[..i]
  {
  }

  lemma MergeReadStays(sha: string -> string, acts: seq<Action>, a: Action, id: nat, branch: string, c: Commit<Content>, r: MergeReads)
    requires MergeRead(sha, acts, id, branch, c, r)
    ensures MergeRead(sha, acts + [a], id, branch, c, r)
  {
    SameBefore(acts, a, r.i);
    SameBefore(acts, a, r.j);
    SameBefore(acts, a, r.k);
  }

  // What was read stays read.
  lemma ReadStays(sha: string -> string, acts: seq<Action>, a: Action, id: nat, p: Pending)
    requires IsRead(sha, acts, id, p)
    ensures IsRead(sha, acts + [a], id, p)
  {
    match p {
      case CommitReady(branch, c) =>
        if i :| CommitRead(sha, acts, id, branch, c, i) {
          SameBefore(acts, a, i);
          assert CommitRead(sha, acts + [a], id, branch, c, i);
        } else {
          var r :| MergeRead(sha, acts, id, branch, c, r);
          MergeReadStays(sha, acts, a, id, branch, c, r);
        }
      case MergeHasInto(uri, into, from, dst, author, message) =>
        var i :| IntoRead(sha, acts, id, uri, into, from, dst, author, message, i);
        SameBefore(acts, a, i);
        assert IntoRead(sha, acts + [a], id, uri, into, from, dst, author, message, i);
      case MergeHasFrom(_, _, _, _, _, _, _) =>
        var i, j :| BothTipsRead(sha, acts, id, p, i, j);
        SameBefore(acts, a, i);
        SameBefore(acts, a, j);
        assert BothTipsRead(sha, acts + [a], id, p, i, j);
      case BranchReady(uri, name, src) =>
        var i :| BranchRead(sha, acts, id, uri, name, src, i);
        SameBefore(acts, a, i);
        assert BranchRead(sha, acts + [a], id, uri, name, src, i);
      case SetReady(uri, branch, hash, row) =>
        var i :| SetRead(sha, acts, id, uri, branch, hash, row, i);
        SameBefore(acts, a, i);
        assert SetRead(sha, acts + [a], id, uri, branch, hash, row, i);
    }
  }

  // The action just run is the last one of the longer run.
  lemma LastOf(acts: seq<Action>, a: Action)
    ensures (acts + [a])[|acts|] == a && (acts + [a])[..|acts|] == acts
  {
  }

  lemma FromIsRead(sha: string -> string, acts: seq<Action>, a: Action, p: Pending)
    requires a.ReadFrom? && p.MergeHasInto? && IsRead(sha, acts, a.id, p)
    requires Tip(Run(sha, acts).db, p.uri, p.from).Some?
    ensures IsRead(sha, acts + [a], a.id, WithSource(p, Tip(Run(sha, acts).db, p.uri, p.from).value))
  {
    var q := WithSource(p, Tip(Run(sha, acts).db, p.uri, p.from).value);
    var i :| IntoRead(sha, acts, a.id, p.uri, p.into, p.from, p.dst, p.author, p.message, i);
    SameBefore(acts, a, i);
    LastOf(acts, a);
    assert BothTipsRead(sha, acts + [a], a.id, q, i, |acts|);
  }

  lemma SourceIsRead(sha: string -> string, acts: seq<Action>, a: Action, p: Pending)
    requires a.ReadSource? && p.MergeHasFrom? && IsRead(sha, acts, a.id, p) && p.src in Run(sha, acts).db.commits
    ensures IsRead(sha, acts + [a], a.id, CommitReady(p.into, MergeOf(sha, Run(sha, acts).db, p)))
  {
    var c := MergeOf(sha, Run(sha, acts).db, p);
    var i, j :| BothTipsRead(sha, acts, a.id, p, i, j);
    SameBefore(acts, a, i);
    SameBefore(acts, a, j);
    LastOf(acts, a);
    assert MergeRead(sha, acts + [a], a.id, p.into, c, MergeReads(i, j, |acts|, p.from, p.message));
  }

  // The first read of an operation, which depends on nothing that it holds.
  lemma FirstReadIsRead(sha: string -> string, acts: seq<Action>, a: Action)
    requires a.ReadForCommit? || a.ReadInto? || a.ReadForBranch? || a.ReadForSet?
    requires Read(sha, Run(sha, acts), a).Some?
    ensures IsRead(sha, acts + [a], a.id, Read(sha, Run(sha, acts), a).value)
  {
    LastOf(acts, a);
    var n, all := |acts|, acts + [a];
    match a {
      case ReadForCommit(id, uri, branch, content, author, message) =>
        assert CommitRead(sha, all, id, branch, NewCommit(sha, Run(sha, acts).db, uri, branch, content, author, message), n);
      case ReadInto(id, uri, into, from, author, message) =>
        assert IntoRead(sha, all, id, uri, into, from, Run(sha, acts).db.refs[(uri, into)], author, message, n);
      case ReadForBranch(id, uri, name, from) =>
        assert BranchRead(sha, all, id, uri, name, Run(sha, acts).db.refs[(uri, from)], n);
      case ReadForSet(id, uri, branch, hash) =>
        var c := Run(sha, acts).db.commits[hash];
        assert SetRead(sha, all, id, uri, branch, hash, Row(c.content, c.versionHash), n);
    }
  }

  lemma NextReadIsRead(sha: string -> string, acts: seq<Action>, a: Action)
    requires a.ReadFrom? || a.ReadSource?
    requires a.id in Run(sha, acts).pending ==> IsRead(sha, acts, a.id, Run(sha, acts).pending[a.id])
    requires Read(sha, Run(sha, acts), a).Some?
    ensures IsRead(sha, acts + [a], a.id, Read(sha, Run(sha, acts), a).value)
  {
    var p := Run(sha, acts).pending[a.id];
    if a.ReadFrom? && p.MergeHasInto? {
      FromIsRead(sha, acts, a, p);
    } else if a.ReadSource? && p.MergeHasFrom? {
      SourceIsRead(sha, acts, a, p);
    } else {
      ReadStays(sha, acts, a, a.id, p);
    }
  }

  // Over every interleaving, every pending operation carries what it read: a commit its
  // branch's tip at its read, a merge the tips of both branches at their reads and the
  // content of the second, a new branch its source's tip, a SetBranch its commit's row.
  lemma {:induction false} PendingIsRead(sha: string -> string, acts: seq<Action>, id: nat)
    requires id in Run(sha, acts).pending
    ensures IsRead(sha, acts, id, Run(sha, acts).pending[id])
    decreases |acts|
  {
    var n := |acts| - 1;
    var init, a := acts[..n], acts[n];
    var s := Run(sha, init);
    assert acts == init + [a];
    if a.Put? || a.Transact? || a.id != id {
      PendingIsRead(sha, init, id);
      ReadStays(sha, init, a, id, s.pending[id]);
    } else if a.ReadFrom? || a.ReadSource? {
      if a.id in s.pending {
        PendingIsRead(sha, init, id);
      }
      NextReadIsRead(sha, init, a);
    } else {
      FirstReadIsRead(sha, init, a);
    }
  }

  // A row that Put wrote is main's exactly when main's commit carries the same content
  // under its version.
  lemma PutServesIff(sha: string -> string, s: Sys, uri: string, content: Content)
    requires ServedIsMain(s.db)
    ensures ServedIsMain(Step(sha, s, Put(uri, content)).db) <==>
      && (uri, "main") in s.db.refs && s.db.refs[(uri, "main")] in s.db.commits
      && s.db.commits[s.db.refs[(uri, "main")]].content == content
      && s.db.commits[s.db.refs[(uri, "main")]].versionHash == VersionHash(sha, content)
  {
    assert Step(sha, s, Put(uri, content)).db.prompts[uri] == Row(content, VersionHash(sha, content));
  }
}
