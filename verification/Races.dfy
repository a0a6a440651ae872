// Which acknowledged commits a branch keeps when operations race: an operation that
// read the branch before others moved it can take it back behind them
// (internal/store/store.go).
module Races {
  import opened Outcomes
  import opened Encodings
  import opened CommitGraph
  import opened Interleaving

  // ---- logs as ancestries ----------------------------------------------------

  // The newer log ends in the whole older one.
  ghost predicate IsTail(older: seq<string>, newer: seq<string>) {
    |older| <= |newer| && newer[|newer| - |older|..] == older
  }

  ghost predicate AllIn(older: seq<string>, newer: seq<string>) {
    forall h :: h in older ==> h in newer
  }

  // t is h or one of its first-parent ancestors.
  ghost predicate Continues(commits: map<string, Commit<Content>>, h: string, t: string) {
    exists hs :: IsLog(commits, h, hs) && t in hs
  }

  lemma LogFrom(commits: map<string, Commit<Content>>, h: string, hs: seq<string>, k: nat)
    requires IsLog(commits, h, hs) && k < |hs|
    ensures IsLog(commits, hs[k], hs[k..])
  {
  }

  lemma TailHoldsItsTip(older: seq<string>, newer: seq<string>)
    requires older != [] && IsTail(older, newer)
    ensures older[0] in newer
  {
    assert newer[|newer| - |older|] == older[0];
  }

  // One log goes on from another exactly when it holds the other's tip, and exactly
  // when it holds all of it.
  lemma GoesOnFrom(commits: map<string, Commit<Content>>, t: string, older: seq<string>, h: string, newer: seq<string>)
    requires "" !in commits && IsLog(commits, t, older) && IsLog(commits, h, newer)
    ensures IsTail(older, newer) <==> t in newer
    ensures AllIn(older, newer) <==> t in newer
  {
    assert older[0] == t;
    if t in newer {
      var k :| 0 <= k < |newer| && newer[k] == t;
      LogFrom(commits, h, newer, k);
      LogIsUnique(commits, t, older, newer[k..]);
    } else if IsTail(older, newer) {
      TailHoldsItsTip(older, newer);
    }
  }

  lemma {:induction false} TailOfTail(x: seq<string>, y: seq<string>, z: seq<string>)
    requires IsTail(x, y) && IsTail(y, z)
    ensures IsTail(x, z)
  {
    assert z[|z| - |x|..] == z[|z| - |y|..][|y| - |x|..];
  }

  // ---- one transaction -------------------------------------------------------

  // Everything on the branch's log stays on it, in place.
  ghost predicate KeepsLog(db: Db<Content>, db': Db<Content>, uri: string, branch: string) {
    forall older :: BranchLog(db, uri, branch, older) ==>
      exists newer :: BranchLog(db', uri, branch, newer) && IsTail(older, newer)
  }

  ghost predicate Holds(db: Db<Content>, uri: string, branch: string, h: string) {
    exists hs :: BranchLog(db, uri, branch, hs) && h in hs
  }

  // The branch's tip is neither the new commit itself nor on its parent's log.
  ghost predicate Overtakes(sha: string -> string, db: Db<Content>, branch: string, c: Commit<Content>) {
    && (c.uri, branch) in db.refs
    && var t := db.refs[(c.uri, branch)]; t != CommitHash(sha, c) && !Continues(db.commits, c.parent, t)
  }

  // With mine the log of its parent, a commit makes the branch's log itself and mine.
  // The entries of the old log stay exactly when the old tip is among these.
  lemma CommitKeepsItsLogIff(sha: string -> string, db: Db<Content>, branch: string, c: Commit<Content>,
                             older: seq<string>, mine: seq<string>)
    requires Sound(sha, db) && SeparableFields(c) && (c.uri, branch) in db.refs
    requires BranchLog(db, c.uri, branch, older)
    requires if mine == [] then c.parent == "" else IsLog(db.commits, c.parent, mine)
    requires Known(db.commits, c.parent2) && (c.parent == "" ==> c.parent2 == "")
    ensures var db', newer := CommitTx(sha, db, branch, c), [CommitHash(sha, c)] + mine;
      && BranchLog(db', c.uri, branch, newer)
      && (AllIn(older, newer) <==> db.refs[(c.uri, branch)] in newer)
      && (IsTail(older, newer) <==> db.refs[(c.uri, branch)] in newer)
  {
    var db' := CommitTx(sha, db, branch, c);
    assert Known(db.commits, c.parent) by {
      assert mine != [] ==> mine[0] in db.commits;
    }
    CommitTxKeepsSound(sha, db, branch, c);
    CommitTxPrepends(sha, db, branch, c, mine);
    CommitTxGrows(sha, db, branch, c);
    LogSurvives(db.commits, db'.commits, db.refs[(c.uri, branch)], older);
    GoesOnFrom(db'.commits, db.refs[(c.uri, branch)], older, CommitHash(sha, c), [CommitHash(sha, c)] + mine);
  }

  lemma LogOfParent(db: Db<Content>, parent: string) returns (mine: seq<string>)
    requires Linked(db) && Acyclic(db.commits) && Known(db.commits, parent)
    ensures if mine == [] then parent == "" else IsLog(db.commits, parent, mine)
    ensures forall t :: t in mine <==> Continues(db.commits, parent, t)
  {
    if parent == "" {
      mine := [];
    } else {
      var rank :| Ranked(db.commits, rank);
      mine := LogExists(db.commits, rank, parent);
      forall hs | IsLog(db.commits, parent, hs) ensures hs == mine {
        LogIsUnique(db.commits, parent, hs, mine);
      }
    }
  }

  ghost predicate Committable(db: Db<Content>, c: Commit<Content>) {
    SeparableFields(c) && Known(db.commits, c.parent) && Known(db.commits, c.parent2) && (c.parent == "" ==> c.parent2 == "")
  }

  lemma OneLogOnly(db: Db<Content>, uri: string, branch: string, x: seq<string>, y: seq<string>)
    requires Linked(db) && BranchLog(db, uri, branch, x) && BranchLog(db, uri, branch, y)
    ensures x == y
  {
    if (uri, branch) in db.refs {
      LogIsUnique(db.commits, db.refs[(uri, branch)], x, y);
    }
  }

  lemma OvertakesIff(sha: string -> string, db: Db<Content>, branch: string, c: Commit<Content>, mine: seq<string>)
    requires forall t :: t in mine <==> Continues(db.commits, c.parent, t)
    ensures Overtakes(sha, db, branch, c) <==>
      (c.uri, branch) in db.refs && db.refs[(c.uri, branch)] !in [CommitHash(sha, c)] + mine
  {
  }

  // The branch's log after the commit, with the parent's log behind it.
  lemma LogAfterCommit(sha: string -> string, db: Db<Content>, branch: string, c: Commit<Content>) returns (mine: seq<string>)
    requires Sound(sha, db) && Committable(db, c)
    ensures if mine == [] then c.parent == "" else IsLog(db.commits, c.parent, mine)
    ensures Linked(CommitTx(sha, db, branch, c))
    ensures BranchLog(CommitTx(sha, db, branch, c), c.uri, branch, [CommitHash(sha, c)] + mine)
    ensures Overtakes(sha, db, branch, c) <==>
      (c.uri, branch) in db.refs && db.refs[(c.uri, branch)] !in [CommitHash(sha, c)] + mine
  {
    mine := LogOfParent(db, c.parent);
    OvertakesIff(sha, db, branch, c, mine);
    CommitTxKeepsLinks(sha, db, branch, c);
    CommitTxPrepends(sha, db, branch, c, mine);
  }

  lemma CommitKeepsLogIff(sha: string -> string, db: Db<Content>, branch: string, c: Commit<Content>)
    requires Sound(sha, db) && Committable(db, c)
    ensures KeepsLog(db, CommitTx(sha, db, branch, c), c.uri, branch) <==> !Overtakes(sha, db, branch, c)
  {
    var older: seq<string> := [];
    var mine := LogAfterCommit(sha, db, branch, c);
    if (c.uri, branch) in db.refs {
      older := TheLog(db, c.uri, branch);
      CommitKeepsItsLogIff(sha, db, branch, c, older, mine);
    }
    KeptIffTail(db, CommitTx(sha, db, branch, c), c.uri, branch, older, [CommitHash(sha, c)] + mine);
  }

  // A commit on the current tip overtakes nothing: only a stale read can.
  lemma CurrentReadNeverOvertakes(sha: string -> string, db: Db<Content>, branch: string, c: Commit<Content>)
    requires Linked(db) && Acyclic(db.commits)
    requires (c.uri, branch) in db.refs ==> c.parent == db.refs[(c.uri, branch)]
    ensures !Overtakes(sha, db, branch, c)
  {
    if (c.uri, branch) in db.refs {
      var log := TheLog(db, c.uri, branch);
      assert log[0] == c.parent;
    }
  }

  lemma KeptIffTail(db: Db<Content>, db': Db<Content>, uri: string, branch: string, older: seq<string>, newer: seq<string>)
    requires Linked(db) && Linked(db') && BranchLog(db, uri, branch, older) && BranchLog(db', uri, branch, newer)
    ensures KeepsLog(db, db', uri, branch) <==> IsTail(older, newer)
  {
    if KeepsLog(db, db', uri, branch) {
      var other :| BranchLog(db', uri, branch, other) && IsTail(older, other);
      OneLogOnly(db', uri, branch, other, newer);
    } else if IsTail(older, newer) {
      forall other | BranchLog(db, uri, branch, other) ensures BranchLog(db', uri, branch, newer) && IsTail(other, newer) {
        OneLogOnly(db, uri, branch, other, older);
      }
    }
  }

  // Setting a branch keeps its log exactly when the commit it is set to continues the tip.
  lemma SetKeepsLogIff(db: Db<Content>, uri: string, branch: string, hash: string, row: Row<Content>)
    requires Linked(db) && Acyclic(db.commits) && hash in db.commits
    ensures KeepsLog(db, SetTx(db, uri, branch, hash, row), uri, branch)
      <==> ((uri, branch) in db.refs ==> Continues(db.commits, hash, db.refs[(uri, branch)]))
  {
    var db' := SetTx(db, uri, branch, hash, row);
    var newer := LogOfParent(db, hash);
    assert BranchLog(db', uri, branch, newer);
    if (uri, branch) in db.refs {
      var older := TheLog(db, uri, branch);
      GoesOnFrom(db.commits, db.refs[(uri, branch)], older, hash, newer);
      KeptIffTail(db, db', uri, branch, older, newer);
    } else {
      KeptIffTail(db, db', uri, branch, [], newer);
    }
  }

  lemma UntouchedKeepsLog(db: Db<Content>, db': Db<Content>, uri: string, branch: string)
    requires Grows(db.commits, db'.commits)
    requires Tip(db', uri, branch) == Tip(db, uri, branch)
    ensures KeepsLog(db, db', uri, branch)
  {
    forall older | BranchLog(db, uri, branch, older) ensures BranchLog(db', uri, branch, older) && IsTail(older, older) {
      if (uri, branch) in db.refs {
        LogSurvives(db.commits, db'.commits, db.refs[(uri, branch)], older);
      }
    }
  }

  lemma NewBranchKeepsLog(db: Db<Content>, db': Db<Content>, uri: string, branch: string)
    requires Linked(db') && Acyclic(db'.commits) && (uri, branch) !in db.refs && (uri, branch) in db'.refs
    ensures KeepsLog(db, db', uri, branch)
  {
    var newer := TheLog(db', uri, branch);
    assert IsTail([], newer);
  }

  // ---- one step of any interleaving ------------------------------------------

  // The step takes the branch off its own history: a commit whose parent was read
  // before the branch moved elsewhere, or a SetBranch to a commit that does not
  // continue the tip.
  ghost predicate Drops(sha: string -> string, s: Sys, a: Action, uri: string, branch: string) {
    && a.Transact? && a.id in s.pending
    && match s.pending[a.id]
       case CommitReady(b, c) => (c.uri, b) == (uri, branch) && Overtakes(sha, s.db, b, c)
       case SetReady(u, b, hash, _) =>
         (u, b) == (uri, branch) && (u, b) in s.db.refs && !Continues(s.db.commits, hash, s.db.refs[(u, b)])
       case _ => false
  }

  // The branch that a ready operation is about.
  function Target(p: Pending): (string, string)
    requires IsReady(p)
  {
    match p
    case CommitReady(branch, c) => (c.uri, branch)
    case BranchReady(uri, name, _) => (uri, name)
    case SetReady(uri, branch, _, _) => (uri, branch)
  }

  lemma OtherTransactionKeepsLog(sha: string -> string, db: Db<Content>, p: Pending, uri: string, branch: string)
    requires IsReady(p) && (p.BranchReady? || Target(p) != (uri, branch))
    requires Linked(AfterTx(sha, db, p)) && Acyclic(AfterTx(sha, db, p).commits) && Grows(db.commits, AfterTx(sha, db, p).commits)
    ensures KeepsLog(db, AfterTx(sha, db, p), uri, branch)
  {
    var db' := AfterTx(sha, db, p);
    if Tip(db', uri, branch) == Tip(db, uri, branch) {
      UntouchedKeepsLog(db, db', uri, branch);
    } else {
      NewBranchKeepsLog(db, db', uri, branch);
    }
  }

  lemma TransactionKeepsLogIff(sha: string -> string, s: Sys, a: Action, uri: string, branch: string)
    requires IsDigest(sha) && CollisionFree(sha) && Inv(s) && AddressInv(sha, s)
    requires a.Transact? && a.id in s.pending && IsReady(s.pending[a.id])
    ensures KeepsLog(s.db, AfterTx(sha, s.db, s.pending[a.id]), uri, branch) <==> !Drops(sha, s, a, uri, branch)
  {
    var p := s.pending[a.id];
    assert StillKnown(s.db.commits, p) && CarriesSeparable(p);
    if p.BranchReady? || Target(p) != (uri, branch) {
      TxKeepsLinks(sha, s.db, p);
      OtherTransactionKeepsLog(sha, s.db, p, uri, branch);
    } else if p.CommitReady? {
      CommitKeepsLogIff(sha, s.db, branch, p.commit);
    } else {
      SetKeepsLogIff(s.db, uri, branch, p.hash, p.row);
    }
  }

  // In any reachable state and for any branch: a step keeps everything on the branch's
  // log exactly when it does not drop it.
  lemma StepKeepsLogIff(sha: string -> string, s: Sys, a: Action, uri: string, branch: string)
    requires IsDigest(sha) && CollisionFree(sha) && Inv(s) && AddressInv(sha, s)
    ensures KeepsLog(s.db, Step(sha, s, a).db, uri, branch) <==> !Drops(sha, s, a, uri, branch)
  {
    if a.Transact? && a.id in s.pending && IsReady(s.pending[a.id]) {
      TransactionKeepsLogIff(sha, s, a, uri, branch);
    } else {
      UntouchedKeepsLog(s.db, Step(sha, s, a).db, uri, branch);
    }
  }

  // ---- whole runs ------------------------------------------------------------

  ghost predicate NothingDrops(sha: string -> string, acts: seq<Action>, later: seq<Action>, uri: string, branch: string) {
    forall k :: 0 <= k < |later| ==> !Drops(sha, Run(sha, acts + later[..k]), later[k], uri, branch)
  }

  lemma KeepsLogTwice(db: Db<Content>, db1: Db<Content>, db2: Db<Content>, uri: string, branch: string)
    requires KeepsLog(db, db1, uri, branch) && KeepsLog(db1, db2, uri, branch)
    ensures KeepsLog(db, db2, uri, branch)
  {
    forall older | BranchLog(db, uri, branch, older)
      ensures exists newer :: BranchLog(db2, uri, branch, newer) && IsTail(older, newer)
    {
      var mid :| BranchLog(db1, uri, branch, mid) && IsTail(older, mid);
      var newer :| BranchLog(db2, uri, branch, newer) && IsTail(mid, newer);
      TailOfTail(older, mid, newer);
    }
  }

  lemma OneStepKeepsLog(sha: string -> string, acts: seq<Action>, a: Action, uri: string, branch: string)
    requires IsDigest(sha) && CollisionFree(sha) && !Drops(sha, Run(sha, acts), a, uri, branch)
    ensures KeepsLog(Run(sha, acts).db, Run(sha, acts + [a]).db, uri, branch)
  {
    RunOneMore(sha, acts, a);
    EveryRunIsAddressed(sha, acts);
    StepKeepsLogIff(sha, Run(sha, acts), a, uri, branch);
  }

  lemma NothingDropsBefore(sha: string -> string, acts: seq<Action>, later: seq<Action>, n: nat, uri: string, branch: string)
    requires n <= |later| && NothingDrops(sha, acts, later, uri, branch)
    ensures NothingDrops(sha, acts, later[..n], uri, branch)
  {
    assert forall k :: 0 <= k < n ==> later[..n][..k] == later[..k];
  }

  // As long as no step drops a branch, whatever else interleaves, its log only grows.
  lemma {:induction false} LogOnlyGrows(sha: string -> string, acts: seq<Action>, later: seq<Action>, uri: string, branch: string)
    requires IsDigest(sha) && CollisionFree(sha) && NothingDrops(sha, acts, later, uri, branch)
    ensures KeepsLog(Run(sha, acts).db, Run(sha, acts + later).db, uri, branch)
    decreases |later|
  {
    if later == [] {
      assert acts + later == acts;
      UntouchedKeepsLog(Run(sha, acts).db, Run(sha, acts).db, uri, branch);
    } else {
      var n := |later| - 1;
      assert acts + later == (acts + later[..n]) + [later[n]];
      NothingDropsBefore(sha, acts, later, n, uri, branch);
      LogOnlyGrows(sha, acts, later[..n], uri, branch);
      OneStepKeepsLog(sha, acts + later[..n], later[n], uri, branch);
      KeepsLogTwice(Run(sha, acts).db, Run(sha, acts + later[..n]).db, Run(sha, acts + later).db, uri, branch);
    }
  }

  lemma TipStays(db: Db<Content>, db': Db<Content>, uri: string, branch: string)
    requires Linked(db) && Acyclic(db.commits) && (uri, branch) in db.refs && KeepsLog(db, db', uri, branch)
    ensures Holds(db', uri, branch, db.refs[(uri, branch)])
  {
    var older := TheLog(db, uri, branch);
    assert BranchLog(db, uri, branch, older);
    var newer :| BranchLog(db', uri, branch, newer) && IsTail(older, newer);
    TailHoldsItsTip(older, newer);
  }

  // An acknowledged commit is still on its branch's log after any further run in which
  // no step drops the branch.
  lemma AcknowledgedCommitStays(sha: string -> string, acts: seq<Action>, id: nat, later: seq<Action>, uri: string,
                                branch: string, c: Commit<Content>)
    requires IsDigest(sha) && CollisionFree(sha)
    requires id in Run(sha, acts).pending && Run(sha, acts).pending[id] == CommitReady(branch, c) && c.uri == uri
    requires NothingDrops(sha, acts + [Transact(id)], later, uri, branch)
    ensures Holds(Run(sha, acts + [Transact(id)] + later).db, uri, branch, CommitHash(sha, c))
  {
    var acts' := acts + [Transact(id)];
    RunOneMore(sha, acts, Transact(id));
    EveryRunIsLinkedAndAcyclic(sha, acts');
    LogOnlyGrows(sha, acts', later, uri, branch);
    TipStays(Run(sha, acts').db, Run(sha, acts' + later).db, uri, branch);
  }

  // A transaction on what is still the tip: a commit on top of it, or a SetBranch to a
  // commit that continues it.
  ghost predicate OnTheTip(s: Sys, a: Action) {
    a.Transact? && a.id in s.pending ==>
      match s.pending[a.id]
      case CommitReady(b, c) => (c.uri, b) in s.db.refs ==> c.parent == s.db.refs[(c.uri, b)]
      case SetReady(u, b, hash, _) => (u, b) in s.db.refs ==> Continues(s.db.commits, hash, s.db.refs[(u, b)])
      case _ => true
  }

  lemma OnTheTipDropsNothing(sha: string -> string, s: Sys, a: Action, uri: string, branch: string)
    requires Inv(s) && OnTheTip(s, a)
    ensures !Drops(sha, s, a, uri, branch)
  {
    if a.Transact? && a.id in s.pending && s.pending[a.id].CommitReady? {
      CurrentReadNeverOvertakes(sha, s.db, s.pending[a.id].branch, s.pending[a.id].commit);
    }
  }

  // So in a run whose commits transact on the tip they read, and whose branches are only
  // set forward, every acknowledged commit stays on its branch's log.
  lemma CurrentReadsKeepEveryCommit(sha: string -> string, acts: seq<Action>, id: nat, later: seq<Action>, uri: string,
                                    branch: string, c: Commit<Content>)
    requires IsDigest(sha) && CollisionFree(sha)
    requires id in Run(sha, acts).pending && Run(sha, acts).pending[id] == CommitReady(branch, c) && c.uri == uri
    requires var start := acts + [Transact(id)];
      forall k :: 0 <= k < |later| ==> OnTheTip(Run(sha, start + later[..k]), later[k])
    ensures Holds(Run(sha, acts + [Transact(id)] + later).db, uri, branch, CommitHash(sha, c))
  {
    var start := acts + [Transact(id)];
    forall k | 0 <= k < |later| ensures !Drops(sha, Run(sha, start + later[..k]), later[k], uri, branch) {
      EveryRunIsLinkedAndAcyclic(sha, start + later[..k]);
      OnTheTipDropsNothing(sha, Run(sha, start + later[..k]), later[k], uri, branch);
    }
    AcknowledgedCommitStays(sha, acts, id, later, uri, branch, c);
  }

  // ---- two commits racing ----------------------------------------------------

  // A commit on a branch is on no log of its parent.
  lemma NewCommitIsOnNoOlderLog(sha: string -> string, db: Db<Content>, branch: string, c: Commit<Content>, before: seq<string>)
    requires Sound(sha, db) && SeparableFields(c) && c.parent != ""
    requires IsLog(db.commits, c.parent, before) && Known(db.commits, c.parent2)
    ensures CommitHash(sha, c) !in before
  {
    var db1, log := CommitTx(sha, db, branch, c), [CommitHash(sha, c)] + before;
    CommitTxKeepsLinks(sha, db, branch, c);
    CommitTxPrepends(sha, db, branch, c, before);
    var rank :| Ranked(db1.commits, rank);
    LogFalls(db1.commits, rank, CommitHash(sha, c), log);
    assert forall k :: 0 <= k < |before| ==> before[k] == log[k + 1];
  }

  // Of two commits that read the same tip, the one that transacts first is off the
  // branch's log once the other has.
  lemma RacingCommitLeavesTheLog(sha: string -> string, db: Db<Content>, branch: string, c: Commit<Content>, d: Commit<Content>,
                                 before: seq<string>)
    requires Sound(sha, db) && SeparableFields(c) && SeparableFields(d)
    requires c.uri == d.uri && c.parent == d.parent && CommitHash(sha, c) != CommitHash(sha, d)
    requires Tip(db, c.uri, branch) == Some(c.parent) && IsLog(db.commits, c.parent, before)
    requires Known(db.commits, c.parent2) && Known(db.commits, d.parent2)
    ensures var db' := CommitTx(sha, CommitTx(sha, db, branch, c), branch, d);
      && BranchLog(db', c.uri, branch, [CommitHash(sha, d)] + before)
      && CommitHash(sha, c) in db'.commits
      && CommitHash(sha, c) !in [CommitHash(sha, d)] + before
  {
    var db1 := CommitTx(sha, db, branch, c);
    NewCommitIsOnNoOlderLog(sha, db, branch, c, before);
    assert Known(db.commits, c.parent) && c.parent != "" by {
      assert before[0] in db.commits;
    }
    CommitTxKeepsSound(sha, db, branch, c);
    CommitTxGrows(sha, db, branch, c);
    LogSurvives(db.commits, db1.commits, c.parent, before);
    CommitTxPrepends(sha, db1, branch, d, before);
  }

  // A root commit, then two commits that both read it before either transacts.
  function RacingRun(content: Content, one: string, two: string): seq<Action> {
    [ReadForCommit(0, "u", MAIN, content, "", ""), Transact(0),
     ReadForCommit(1, "u", MAIN, content, "", one), ReadForCommit(2, "u", MAIN, content, "", two),
     Transact(1), Transact(2)]
  }

  // No branch's log and no second parent leads to the commit.
  ghost predicate Orphaned(db: Db<Content>, h: string) {
    && h in db.commits
    && (forall uri, branch :: !Holds(db, uri, branch, h))
    && (forall g :: g in db.commits ==> db.commits[g].parent2 != h)
  }

  lemma SixSteps(sha: string -> string, acts: seq<Action>)
    requires |acts| == 6
    ensures Run(sha, acts[..2]) == Step(sha, Step(sha, INIT, acts[0]), acts[1])
    ensures Run(sha, acts)
      == Step(sha, Step(sha, Step(sha, Step(sha, Run(sha, acts[..2]), acts[2]), acts[3]), acts[4]), acts[5])
  {
    assert acts[..0] == [] && acts[..6] == acts;
    TwoMoreSteps(sha, acts, 0);
    TwoMoreSteps(sha, acts, 2);
    TwoMoreSteps(sha, acts, 4);
  }

  lemma RootStep(sha: string -> string, content: Content)
    ensures var root := NewCommit(sha, INIT.db, "u", MAIN, content, "", "");
      var hash := CommitHash(sha, root);
      var s := Step(sha, Step(sha, INIT, ReadForCommit(0, "u", MAIN, content, "", "")), Transact(0));
      && s.pending == map[]
      && s.db == Db(map[hash := root], map[("u", MAIN) := hash], map["u" := Row(content, VersionHash(sha, content))])
  {
  }

  lemma BothRead(sha: string -> string, s: Sys, content: Content, one: string, two: string)
    requires s.pending == map[]
    ensures var c, d := NewCommit(sha, s.db, "u", MAIN, content, "", one), NewCommit(sha, s.db, "u", MAIN, content, "", two);
      Step(sha, Step(sha, s, ReadForCommit(1, "u", MAIN, content, "", one)), ReadForCommit(2, "u", MAIN, content, "", two))
        == Sys(s.db, map[1 := CommitReady(MAIN, c), 2 := CommitReady(MAIN, d)])
  {
  }

  lemma BothCommit(sha: string -> string, db: Db<Content>, c: Commit<Content>, d: Commit<Content>)
    ensures Step(sha, Step(sha, Sys(db, map[1 := CommitReady(MAIN, c), 2 := CommitReady(MAIN, d)]), Transact(1)), Transact(2)).db
      == CommitTx(sha, CommitTx(sha, db, MAIN, c), MAIN, d)
  {
  }

  // In this run the first of the two racing commits ends up orphaned.
  lemma RacingRunOrphans(sha: string -> string, content: Content, one: string, two: string)
    requires IsDigest(sha) && CollisionFree(sha) && one != two
    ensures var s2 := Run(sha, RacingRun(content, one, two)[..2]);
      Orphaned(Run(sha, RacingRun(content, one, two)).db, CommitHash(sha, NewCommit(sha, s2.db, "u", MAIN, content, "", one)))
  {
    var acts := RacingRun(content, one, two);
    SixSteps(sha, acts);
    RootStep(sha, content);
    var s2 := Run(sha, acts[..2]);
    var db := s2.db;
    var c, d := NewCommit(sha, db, "u", MAIN, content, "", one), NewCommit(sha, db, "u", MAIN, content, "", two);
    BothRead(sha, s2, content, one, two);
    BothCommit(sha, db, c, d);
    RacersOrphan(sha, db, NewCommit(sha, INIT.db, "u", MAIN, content, "", ""), c, d);
  }

  // One root commit on main, and two commits on top of it.
  ghost predicate Racers(sha: string -> string, db: Db<Content>, root: Commit<Content>, c: Commit<Content>, d: Commit<Content>) {
    var hash := CommitHash(sha, root);
    && db.commits == map[hash := root] && db.refs == map[("u", MAIN) := hash]
    && root.uri == "u" && root.parent == "" && root.parent2 == "" && root.author == "" && SeparableFields(root)
    && c == root.(parent := hash, message := c.message) && d == root.(parent := hash, message := d.message)
  }

  lemma RootIsSound(sha: string -> string, db: Db<Content>, root: Commit<Content>, c: Commit<Content>, d: Commit<Content>)
    requires IsDigest(sha) && CollisionFree(sha) && Racers(sha, db, root, c, d)
    ensures Sound(sha, db) && IsLog(db.commits, CommitHash(sha, root), [CommitHash(sha, root)])
  {
    assert Ranked(db.commits, map[CommitHash(sha, root) := 0]);
  }

  lemma RacersDiffer(sha: string -> string, db: Db<Content>, root: Commit<Content>, c: Commit<Content>, d: Commit<Content>)
    requires IsDigest(sha) && CollisionFree(sha) && Racers(sha, db, root, c, d) && c.message != d.message
    ensures CommitHash(sha, c) != CommitHash(sha, d)
  {
    if CommitHash(sha, c) == CommitHash(sha, d) {
      CommitInputDetermines(c.versionHash, c.parent, "", c.author, c.message, d.versionHash, d.parent, "", d.author, d.message);
    }
  }

  lemma RacersStayLinked(sha: string -> string, db: Db<Content>, root: Commit<Content>, c: Commit<Content>, d: Commit<Content>)
    requires IsDigest(sha) && CollisionFree(sha) && Racers(sha, db, root, c, d)
    ensures Linked(CommitTx(sha, CommitTx(sha, db, MAIN, c), MAIN, d))
  {
    RootIsSound(sha, db, root, c, d);
    CommitTxKeepsLinks(sha, db, MAIN, c);
    CommitTxKeepsLinks(sha, CommitTx(sha, db, MAIN, c), MAIN, d);
  }

  lemma RacersMergeNothing(sha: string -> string, db: Db<Content>, root: Commit<Content>, c: Commit<Content>, d: Commit<Content>)
    requires Racers(sha, db, root, c, d)
    ensures var db' := CommitTx(sha, CommitTx(sha, db, MAIN, c), MAIN, d);
      db'.refs.Keys == {("u", MAIN)} && forall g :: g in db'.commits ==> db'.commits[g].parent2 == ""
  {
  }

  lemma OffTheOnlyLog(db: Db<Content>, h: string, log: seq<string>)
    requires Linked(db) && db.refs.Keys == {("u", MAIN)} && BranchLog(db, "u", MAIN, log)
    requires h in db.commits && h !in log
    requires forall g :: g in db.commits ==> db.commits[g].parent2 == ""
    ensures Orphaned(db, h)
  {
    forall uri, branch | Holds(db, uri, branch, h) ensures false {
      OnlyMainHolds(db, uri, branch, h, log);
    }
  }

  lemma OnlyMainHolds(db: Db<Content>, uri: string, branch: string, h: string, log: seq<string>)
    requires Linked(db) && db.refs.Keys == {("u", MAIN)} && BranchLog(db, "u", MAIN, log) && Holds(db, uri, branch, h)
    ensures h in log
  {
    var hs :| BranchLog(db, uri, branch, hs) && h in hs;
    assert (uri, branch) in db.refs.Keys;
    OneLogOnly(db, "u", MAIN, hs, log);
  }

  lemma RacersOrphan(sha: string -> string, db: Db<Content>, root: Commit<Content>, c: Commit<Content>, d: Commit<Content>)
    requires IsDigest(sha) && CollisionFree(sha) && Racers(sha, db, root, c, d) && c.message != d.message
    ensures Orphaned(CommitTx(sha, CommitTx(sha, db, MAIN, c), MAIN, d), CommitHash(sha, c))
  {
    RootIsSound(sha, db, root, c, d);
    RacersDiffer(sha, db, root, c, d);
    RacingCommitLeavesTheLog(sha, db, MAIN, c, d, [CommitHash(sha, root)]);
    RacersStayLinked(sha, db, root, c, d);
    RacersMergeNothing(sha, db, root, c, d);
    var db' := CommitTx(sha, CommitTx(sha, db, MAIN, c), MAIN, d);
    OffTheOnlyLog(db', CommitHash(sha, c), [CommitHash(sha, d)] + [CommitHash(sha, root)]);
  }
}
