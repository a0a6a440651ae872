// What subscribers know while requests overlap: a handler that moves the served HEAD
// commits first and notifies later, and a notification can be lost
// (internal/server/server.go).
module Announcing {
  import opened Outcomes

  // A change of a served HEAD. Publishes and rollbacks are announced, merges are not.
  datatype Change = Change(uri: string, version: string, announces: bool)

  // Changes are numbered in the order of their commits. A handler between its commit and
  // its notification is pending with its change; notes are the changes announced so far.
  datatype State = State(changes: seq<Change>, pending: map<nat, nat>, notes: seq<nat>)

  const INIT: State := State([], map[], [])

  datatype Action =
    | Commit(id: nat, change: Change)
    | Notify(id: nat)
    | Lose(id: nat)

  function Step(s: State, a: Action): State {
    match a
    case Commit(id, c) =>
      if id in s.pending then s
      else State(s.changes + [c], if c.announces then s.pending[id := |s.changes|] else s.pending, s.notes)
    case Notify(id) =>
      if id in s.pending then State(s.changes, s.pending - {id}, s.notes + [s.pending[id]]) else s
    case Lose(id) => s.(pending := s.pending - {id})
  }

  function Run(acts: seq<Action>): State {
    if acts == [] then INIT else Step(Run(acts[..|acts| - 1]), acts[|acts| - 1])
  }

  predicate Of(changes: seq<Change>, c: nat, uri: string) {
    c < |changes| && changes[c].uri == uri
  }

  // The change that a uri serves.
  function LastChange(changes: seq<Change>, uri: string): (r: Option<nat>)
    ensures r.Some? ==> Of(changes, r.value, uri) && forall c: nat :: Of(changes, c, uri) ==> c <= r.value
    ensures r.None? ==> forall c: nat :: !Of(changes, c, uri)
  {
    if changes == [] then None
    else if changes[|changes| - 1].uri == uri then Some(|changes| - 1)
    else
      var r := LastChange(changes[..|changes| - 1], uri);
      assert forall c: nat :: Of(changes, c, uri) ==> Of(changes[..|changes| - 1], c, uri);
      r
  }

  // The change of a uri announced last.
  function LastNote(changes: seq<Change>, notes: seq<nat>, uri: string): (r: Option<nat>)
    ensures r.Some? ==> r.value in notes && Of(changes, r.value, uri)
    ensures r.None? ==> forall c: nat :: c in notes ==> !Of(changes, c, uri)
  {
    if notes == [] then None
    else if Of(changes, notes[|notes| - 1], uri) then Some(notes[|notes| - 1])
    else LastNote(changes, notes[..|notes| - 1], uri)
  }

  // Subscribers were told last of the change that is served.
  ghost predicate InStep(s: State, uri: string) {
    LastNote(s.changes, s.notes, uri) == LastChange(s.changes, uri)
  }

  // Of the changes announced for the uri, the newest was announced last.
  ghost predicate NewestLast(s: State, uri: string) {
    forall c: nat :: c in s.notes && Of(s.changes, c, uri) ==> c <= LastNote(s.changes, s.notes, uri).value
  }

  // No handler of the uri is still to notify.
  ghost predicate Settled(s: State, uri: string) {
    forall id :: id in s.pending ==> !Of(s.changes, s.pending[id], uri)
  }

  ghost predicate Announces(changes: seq<Change>, c: nat) {
    c < |changes| && changes[c].announces
  }

  ghost predicate Inv(s: State) {
    && (forall c: nat :: c in s.notes ==> Announces(s.changes, c))
    && (forall id :: id in s.pending ==> Announces(s.changes, s.pending[id]))
  }

  lemma StepKeepsInv(s: State, a: Action)
    requires Inv(s)
    ensures Inv(Step(s, a))
  {
  }

  lemma {:induction false} EveryRunKeepsInv(acts: seq<Action>)
    ensures Inv(Run(acts))
  {
    if acts != [] {
      EveryRunKeepsInv(acts[..|acts| - 1]);
      StepKeepsInv(Run(acts[..|acts| - 1]), acts[|acts| - 1]);
    }
  }

  // In every state of every run, subscribers of a served uri are in step exactly when
  // what it serves has been announced and the newest announcement came last.
  lemma InStepIff(acts: seq<Action>, uri: string)
    requires LastChange(Run(acts).changes, uri).Some?
    ensures var s := Run(acts);
      InStep(s, uri) <==> LastChange(s.changes, uri).value in s.notes && NewestLast(s, uri)
  {
    EveryRunKeepsInv(acts);
  }

  // ---- order of announcements ------------------------------------------------

  // An announcement for the uri that comes after a newer one.
  ghost predicate Late(s: State, a: Action, uri: string) {
    && a.Notify? && a.id in s.pending && Of(s.changes, s.pending[a.id], uri)
    && exists c: nat :: c in s.notes && Of(s.changes, c, uri) && c > s.pending[a.id]
  }

  lemma NotesOfGrown(changes: seq<Change>, c: Change, notes: seq<nat>, uri: string)
    requires forall k :: 0 <= k < |notes| ==> notes[k] < |changes|
    ensures LastNote(changes + [c], notes, uri) == LastNote(changes, notes, uri)
  {
    if notes != [] {
      NotesOfGrown(changes, c, notes[..|notes| - 1], uri);
    }
  }

  lemma OneMoreNote(changes: seq<Change>, notes: seq<nat>, n: nat, uri: string)
    ensures LastNote(changes, notes + [n], uri) == if Of(changes, n, uri) then Some(n) else LastNote(changes, notes, uri)
  {
    assert (notes + [n])[..|notes|] == notes;
  }

  // A step keeps the newest announcement last exactly when it is not a late one.
  lemma StepKeepsNewestLastIff(s: State, a: Action, uri: string)
    requires Inv(s) && NewestLast(s, uri)
    ensures NewestLast(Step(s, a), uri) <==> !Late(s, a, uri)
  {
    match a {
      case Commit(id, c) =>
        assert forall k :: 0 <= k < |s.notes| ==> Announces(s.changes, s.notes[k]);
        NotesOfGrown(s.changes, c, s.notes, uri);
        assert forall n: nat :: n in s.notes ==> (Of(s.changes + [c], n, uri) <==> Of(s.changes, n, uri));
      case Notify(id) =>
        if id in s.pending {
          OneMoreNote(s.changes, s.notes, s.pending[id], uri);
        }
      case Lose(_) =>
    }
  }

  ghost predicate IsPending(s: State, c: nat) {
    exists id :: id in s.pending && s.pending[id] == c
  }

  // Every change of the uri that announces is announced already or about to be.
  ghost predicate Awaited(s: State, uri: string) {
    forall c: nat :: Of(s.changes, c, uri) && s.changes[c].announces ==> c in s.notes || IsPending(s, c)
  }

  ghost predicate Loses(s: State, a: Action, uri: string) {
    a.Lose? && a.id in s.pending && Of(s.changes, s.pending[a.id], uri)
  }

  lemma StepKeepsAwaited(s: State, a: Action, uri: string)
    requires Inv(s) && Awaited(s, uri) && !Loses(s, a, uri)
    ensures Awaited(Step(s, a), uri)
  {
    var s' := Step(s, a);
    forall c: nat | Of(s'.changes, c, uri) && s'.changes[c].announces ensures c in s'.notes || IsPending(s', c) {
      if c == |s.changes| {
        assert s'.pending[a.id] == c;
      } else {
        assert Of(s.changes, c, uri) && s'.changes[c] == s.changes[c];
        if c !in s.notes {
          var id :| id in s.pending && s.pending[id] == c;
          assert (a.Notify? && a.id == id) || (id in s'.pending && s'.pending[id] == c);
        }
      }
    }
  }

  // No notification of the uri is lost or comes late.
  ghost predicate Delivers(acts: seq<Action>, uri: string) {
    forall k :: 0 <= k < |acts| ==> !Late(Run(acts[..k]), acts[k], uri) && !Loses(Run(acts[..k]), acts[k], uri)
  }

  lemma {:induction false} DeliveringRuns(acts: seq<Action>, uri: string)
    requires Delivers(acts, uri)
    ensures NewestLast(Run(acts), uri) && Awaited(Run(acts), uri)
  {
    if acts == [] {
      assert Run(acts) == INIT;
    } else {
      var n := |acts| - 1;
      var init := acts[..n];
      assert forall k :: 0 <= k < n ==> init[..k] == acts[..k];
      DeliveringRuns(init, uri);
      EveryRunKeepsInv(init);
      StepKeepsNewestLastIff(Run(init), acts[n], uri);
      StepKeepsAwaited(Run(init), acts[n], uri);
    }
  }

  // Whatever interleaves: if no notification of the uri is lost or late, then once no
  // handler of the uri is still to notify, subscribers are in step exactly when what it
  // serves is not the work of a merge.
  lemma SettledInStepIff(acts: seq<Action>, uri: string)
    requires Delivers(acts, uri) && Settled(Run(acts), uri) && LastChange(Run(acts).changes, uri).Some?
    ensures var s := Run(acts); InStep(s, uri) <==> s.changes[LastChange(s.changes, uri).value].announces
  {
    DeliveringRuns(acts, uri);
    InStepIff(acts, uri);
    EveryRunKeepsInv(acts);
    assert !IsPending(Run(acts), LastChange(Run(acts).changes, uri).value);
  }

  // Two publishes that notify in the other order: everyone is done, no merge is
  // involved, and subscribers hold the older version.
  lemma OvertakenNotification(older: string, newer: string)
    ensures var acts := [Commit(0, Change("u", older, true)), Commit(1, Change("u", newer, true)), Notify(1), Notify(0)];
      var s := Run(acts);
      && Settled(s, "u") && LastChange(s.changes, "u") == Some(1) && s.changes[1].announces
      && LastNote(s.changes, s.notes, "u") == Some(0) && !InStep(s, "u")
      && Late(Run(acts[..3]), acts[3], "u")
  {
    var a, b := Change("u", older, true), Change("u", newer, true);
    var acts := [Commit(0, a), Commit(1, b), Notify(1), Notify(0)];
    assert acts[..3][..2] == acts[..2] && acts[..2][..1] == acts[..1] && acts[..1][..0] == [];
    assert Run(acts[..1]) == State([a], map[0 := 0], []);
    assert Run(acts[..2]) == State([a, b], map[0 := 0, 1 := 1], []);
    assert Run(acts[..3]) == State([a, b], map[0 := 0], [1]);
    assert Run(acts) == State([a, b], map[], [1, 0]);
    assert 1 in Run(acts[..3]).notes;
  }

  // A lost notification: the handler is done, and subscribers stay where they were.
  lemma LostNotification(older: string, newer: string)
    ensures var acts := [Commit(0, Change("u", older, true)), Notify(0), Commit(1, Change("u", newer, true)), Lose(1)];
      var s := Run(acts);
      && Settled(s, "u") && LastChange(s.changes, "u") == Some(1) && s.changes[1].announces
      && LastNote(s.changes, s.notes, "u") == Some(0) && !InStep(s, "u")
  {
    var a, b := Change("u", older, true), Change("u", newer, true);
    var acts := [Commit(0, a), Notify(0), Commit(1, b), Lose(1)];
    assert acts[..3][..2] == acts[..2] && acts[..2][..1] == acts[..1] && acts[..1][..0] == [];
    assert Run(acts[..1]) == State([a], map[0 := 0], []);
    assert Run(acts[..2]) == State([a], map[], [0]);
    assert Run(acts[..3]) == State([a, b], map[1 := 1], [0]);
    assert Run(acts) == State([a, b], map[], [0]);
  }
}
