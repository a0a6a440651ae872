// The store object: its methods change the sealed tables in place, and each is
// proved against the plaintext operation it stands for (internal/store/store.go).
module Stores {
  import opened Outcomes
  import opened Columns
  import opened CommitGraph
  import opened SealedStore

  class Store {
    const sha: string -> string
    const json: Json
    const key: Key
    var commits: map<string, Commit<Sealed>>
    var refs: map<(string, string), string>
    var prompts: map<string, Row<Sealed>>
    // What the tables stand for.
    ghost var view: Db<Content>

    function Raw(): Db<Sealed>
      reads this
    {
      Db(commits, refs, prompts)
    }

    ghost predicate Valid()
      reads this
    {
      json.Valid() && ValidKey(key) && Represents(key, json, Raw(), view)
    }

    // With a key, every row of the tables that is not as in base has encrypted columns.
    ghost predicate WritesEncrypted(base: Db<Sealed>)
      reads this
    {
      key.Some? ==> EncryptedSince(key.value, json, base, Raw(), view)
    }

    // A commit's columns as they are written.
    method SealedCommit(c: Commit<Content>, entropy: (string, string)) returns (sealed: Commit<Sealed>)
      requires Valid()
      ensures sealed == SealCommit(key, json, entropy, c) && SameCommit(key, json, sealed, c)
      ensures key.Some? ==> EncryptedContent(key.value, json, sealed.content, c.content)
    {
      sealed := SealCommit(key, json, entropy, c);
      OpenUndoesSealContent(key, json, entropy, c.content);
      if key.Some? {
        SealContentEncrypts(key.value, json, entropy, c.content);
      }
    }

    method SealedRow(row: Row<Content>, entropy: (string, string)) returns (sealed: Row<Sealed>)
      requires Valid()
      ensures sealed == SealRow(key, json, entropy, row) && SameRow(key, json, sealed, row)
      ensures key.Some? ==> EncryptedContent(key.value, json, sealed.content, row.content)
    {
      sealed := SealRow(key, json, entropy, row);
      OpenUndoesSealContent(key, json, entropy, row.content);
      if key.Some? {
        SealContentEncrypts(key.value, json, entropy, row.content);
      }
    }

    constructor (sha: string -> string, json: Json, key: Key)
      requires json.Valid() && ValidKey(key)
      ensures Valid() && view == Db(map[], map[], map[])
      ensures this.sha == sha && this.json == json && this.key == key
    {
      this.sha, this.json, this.key := sha, json, key;
      commits, refs, prompts := map[], map[], map[];
      view := Db(map[], map[], map[]);
    }

    // ---- reads ---------------------------------------------------------------

    method TipOf(uri: string, branch: string) returns (tip: Option<string>)
      requires Valid()
      ensures tip == Tip(view, uri, branch)
    {
      tip := if (uri, branch) in refs then Some(refs[(uri, branch)]) else None;
    }

    method GetCommit(hash: string) returns (r: Outcome<Commit<Content>>)
      requires Valid()
      ensures r == if hash in view.commits then Done(view.commits[hash]) else NotFound
    {
      if hash !in commits {
        return NotFound;
      }
      assert SameCommit(key, json, commits[hash], view.commits[hash]);
      var content := OpenContent(key, json, commits[hash].content);
      return Done(WithContent(commits[hash], content.value));
    }

    method Get(uri: string) returns (r: Outcome<Row<Content>>)
      requires Valid()
      ensures r == if uri in view.prompts then Done(view.prompts[uri]) else NotFound
    {
      if uri !in prompts {
        return NotFound;
      }
      assert SameRow(key, json, prompts[uri], view.prompts[uri]);
      var content := OpenContent(key, json, prompts[uri].content);
      return Done(Row(content.value, prompts[uri].versionHash));
    }

    method ResolveRef(uri: string, ref: string) returns (r: Outcome<(string, Commit<Content>)>)
      requires Valid()
      ensures r == Resolve(view, uri, ref)
    {
      var tip := TipOf(uri, ref);
      var hash := if tip.Some? then tip.value else ref;
      var c := GetCommit(hash);
      if c.Done? && (tip.Some? || c.value.uri == uri) {
        return Done((hash, c.value));
      }
      return NotFound;
    }

    // The log of a branch with its commits, or the error when the branch is missing.
    method Log(uri: string, branch: string) returns (r: Outcome<seq<(string, Commit<Content>)>>, ghost hs: seq<string>)
      requires Valid() && Linked(view) && Acyclic(view.commits)
      ensures r.BranchNotFound? <==> (uri, branch) !in view.refs
      ensures r.Done? <==> (uri, branch) in view.refs
      ensures r.Done? ==> BranchLog(view, uri, branch, hs) && |r.value| == |hs|
      ensures r.Done? ==> forall k :: 0 <= k < |hs| ==> r.value[k] == (hs[k], view.commits[hs[k]])
    {
      hs := [];
      var tip := TipOf(uri, branch);
      if tip.None? {
        return BranchNotFound, hs;
      }
      ghost var whole := TheLog(view, uri, branch);
      hs := whole;
      var out := Walk(tip.value, whole);
      return Done(out), hs;
    }

    // The loop of Log, from hash h on.
    method Walk(first: string, ghost whole: seq<string>) returns (out: seq<(string, Commit<Content>)>)
      requires Valid() && "" !in view.commits && IsLog(view.commits, first, whole)
      ensures |out| == |whole|
      ensures forall k :: 0 <= k < |whole| ==> out[k] == (whole[k], view.commits[whole[k]])
    {
      var h := first;
      out := [];
      ghost var rows := view.commits;
      while h != ""
        invariant |out| <= |whole|
        invariant h == if |out| < |whole| then whole[|out|] else ""
        invariant forall k :: 0 <= k < |out| ==> out[k].0 == whole[k] && out[k].1 == rows[whole[k]]
        decreases |whole| - |out|
      {
        LogStep(rows, first, whole, |out|);
        var c := GetCommit(h);
        out := out + [(h, c.value)];
        h := c.value.parent;
      }
    }

    // ---- writes --------------------------------------------------------------

    // Insert the commit and move the branch, in one transaction.
    method CommitWith(branch: string, c: Commit<Content>, entropy: (string, string)) returns (hash: string)
      requires Valid()
      modifies this
      ensures Valid() && view == CommitTx(sha, old(view), branch, c) && hash == CommitHash(sha, c)
      ensures Raw() == CommitTx(sha, old(Raw()), branch, SealCommit(key, json, entropy, c))
      ensures WritesEncrypted(old(Raw()))
    {
      var sealed := SealedCommit(c, entropy);
      CommitTxRefines(sha, key, json, Raw(), view, branch, sealed, c);
      if key.Some? {
        NothingWritten(key.value, json, Raw(), view);
        CommitTxEncrypts(sha, key.value, json, Raw(), Raw(), view, branch, sealed, c);
      }
      hash := CommitHash(sha, sealed);
      if hash !in commits {
        commits := commits[hash := sealed];
      }
      refs := refs[(c.uri, branch) := hash];
      if branch == MAIN {
        prompts := prompts[c.uri := Row(sealed.content, sealed.versionHash)];
      }
      view := CommitTx(sha, view, branch, c);
    }

    method Commit(uri: string, branch: string, content: Content, author: string, message: string, entropy: (string, string))
      returns (hash: string)
      requires Valid()
      modifies this
      ensures Valid() && view == CommitOp(sha, old(view), uri, branch, content, author, message)
      ensures WritesEncrypted(old(Raw()))
      ensures hash == CommitHash(sha, NewCommit(sha, old(view), uri, branch, content, author, message))
    {
      var tip := TipOf(uri, branch);
      var parent := if tip.Some? then tip.value else "";
      var c := CommitGraph.Commit(uri, content, VersionHash(sha, content), parent, "", author, message);
      hash := CommitWith(branch, c, entropy);
    }

    method Branch(uri: string, name: string, from: string) returns (r: Outcome<()>)
      requires Valid()
      modifies this
      ensures Valid()
      ensures var b := BranchOp(old(view), uri, name, from);
        && view == (if b.Done? then b.value else old(view))
        && (r.Done? <==> b.Done?) && (r.BranchNotFound? <==> b.BranchNotFound?) && (r.Conflict? <==> b.Conflict?)
    {
      var src := TipOf(uri, from);
      if src.None? {
        return BranchNotFound;
      }
      if (uri, name) in refs {
        return Conflict;
      }
      refs := refs[(uri, name) := src.value];
      view := view.(refs := refs);
      return Done(());
    }

    method Merge(uri: string, into: string, from: string, author: string, message: string, entropy: (string, string))
      returns (r: Outcome<string>)
      requires Valid()
      modifies this
      ensures Valid() && WritesEncrypted(old(Raw()))
      ensures var c := MergeCommit(sha, old(view), uri, into, from, author, message);
        && view == (if c.Done? then CommitTx(sha, old(view), into, c.value) else old(view))
        && (r.Done? <==> c.Done?) && (r.BranchNotFound? <==> c.BranchNotFound?) && (r.NotFound? <==> c.NotFound?)
        && (r.Done? ==> r.value == CommitHash(sha, c.value))
    {
      var dst := TipOf(uri, into);
      if dst.None? {
        return BranchNotFound;
      }
      var srcHash := TipOf(uri, from);
      if srcHash.None? {
        return BranchNotFound;
      }
      var src := GetCommit(srcHash.value);
      if !src.Done? {
        return NotFound;
      }
      var text := if message == "" then "merge " + from + " into " + into else message;
      var content := src.value.content;
      var c := CommitGraph.Commit(uri, content, VersionHash(sha, content), dst.value, srcHash.value, author, text);
      var hash := CommitWith(into, c, entropy);
      return Done(hash);
    }

    method SetBranch(uri: string, branch: string, hash: string, entropy: (string, string)) returns (r: Outcome<Commit<Content>>)
      requires Valid()
      modifies this
      ensures Valid() && WritesEncrypted(old(Raw()))
      ensures r == CommitOf(old(view), uri, hash)
      ensures view == if r.Done? then SetTx(old(view), uri, branch, hash, Row(r.value.content, r.value.versionHash)) else old(view)
    {
      var c := GetCommit(hash);
      if !c.Done? || c.value.uri != uri {
        return NotFound;
      }
      var row := Row(c.value.content, c.value.versionHash);
      var sealed := SealedRow(row, entropy);
      SetTxRefines(key, json, Raw(), view, uri, branch, hash, sealed, row);
      if key.Some? {
        NothingWritten(key.value, json, Raw(), view);
        SetTxEncrypts(key.value, json, Raw(), Raw(), view, uri, branch, hash, sealed, row);
      }
      refs := refs[(uri, branch) := hash];
      if branch == MAIN {
        prompts := prompts[uri := sealed];
      }
      view := SetTx(view, uri, branch, hash, row);
      return c;
    }

    // Writes the served row without a commit.
    method Put(uri: string, content: Content, entropy: (string, string))
      requires Valid()
      modifies this
      ensures Valid() && WritesEncrypted(old(Raw()))
      ensures view == old(view).(prompts := old(view).prompts[uri := Row(content, VersionHash(sha, content))])
    {
      var row := Row(content, VersionHash(sha, content));
      var sealed := SealedRow(row, entropy);
      PutRefines(key, json, Raw(), view, uri, sealed, row);
      if key.Some? {
        NothingWritten(key.value, json, Raw(), view);
        RowInsertEncrypts(key.value, json, prompts, prompts, view.prompts, uri, sealed, row);
      }
      prompts := prompts[uri := sealed];
      view := view.(prompts := view.prompts[uri := row]);
    }
  }
}
