// The interleaved protocol over sealed columns: every step is at most one access to
// the database, so encryption changes nothing that operations read or leave behind
// (internal/store/store.go and internal/store/crypt.go).
module SealedProtocol {
  import opened Outcomes
  import opened Columns
  import opened Encodings
  import opened CommitGraph
  import opened Interleaving
  import opened SealedStore

  // ---- what a step asks of the database --------------------------------------

  // The access of a step by an operation that holds p; entropy seals what it writes.
  function AccessOf(sha: string -> string, p: Option<Pending>, a: Action, entropy: (string, string)): Option<Access> {
    match a
    case ReadForCommit(_, uri, branch, _, _, _) => Some(ReadTip(uri, branch))
    case ReadInto(_, uri, into, _, _, _) => Some(ReadTip(uri, into))
    case ReadFrom(_) => if p.Some? && p.value.MergeHasInto? then Some(ReadTip(p.value.uri, p.value.from)) else None
    case ReadSource(_) => if p.Some? && p.value.MergeHasFrom? then Some(ReadCommit(p.value.src)) else None
    case ReadForBranch(_, uri, _, from) => Some(ReadTip(uri, from))
    case ReadForSet(_, _, _, hash) => Some(ReadCommit(hash))
    case Transact(_) => if p.Some? && IsReady(p.value) then Some(WriteOf(p.value, entropy)) else None
    case Abandon(_) => None
    case Put(uri, content) => Some(WriteRow(uri, Row(content, VersionHash(sha, content)), entropy))
  }

  function WriteOf(p: Pending, entropy: (string, string)): Access
    requires IsReady(p)
  {
    match p
    case CommitReady(branch, c) => WriteCommit(branch, c, entropy)
    case BranchReady(uri, name, src) => WriteRef(uri, name, src)
    case SetReady(uri, branch, hash, row) => WriteSet(uri, branch, hash, row, entropy)
  }

  // What the operation holds once it has its answer; anything but what it asked for
  // fails the read.
  function Heard(sha: string -> string, p: Option<Pending>, a: Action, answer: Answer): Option<Pending> {
    match a
    case ReadForCommit(_, uri, branch, content, author, message) =>
      if answer.TipIs? then
        var parent := if answer.tip.Some? then answer.tip.value else "";
        Some(CommitReady(branch, Commit(uri, content, VersionHash(sha, content), parent, "", author, message)))
      else None
    case ReadInto(_, uri, into, from, author, message) =>
      if answer.TipIs? && answer.tip.Some? then Some(MergeHasInto(uri, into, from, answer.tip.value, author, message)) else None
    case ReadFrom(_) =>
      if p.Some? && p.value.MergeHasInto? then
        if answer.TipIs? && answer.tip.Some? then Some(WithSource(p.value, answer.tip.value)) else None
      else p
    case ReadSource(_) =>
      if p.Some? && p.value.MergeHasFrom? then
        if answer.CommitIs? && answer.commit.Some? then
          Some(CommitReady(p.value.into, MergeWith(sha, p.value, answer.commit.value.content)))
        else None
      else p
    case ReadForBranch(_, uri, name, _) =>
      if answer.TipIs? && answer.tip.Some? then Some(BranchReady(uri, name, answer.tip.value)) else None
    case ReadForSet(_, uri, branch, hash) =>
      if answer.CommitIs? && answer.commit.Some? && answer.commit.value.uri == uri then
        Some(SetReady(uri, branch, hash, Row(answer.commit.value.content, answer.commit.value.versionHash)))
      else None
    case Transact(_) => if p.Some? && IsReady(p.value) then None else p
    case Abandon(_) => None
    case Put(_, _) => None
  }

  function HeldBy(pending: map<nat, Pending>, a: Action): Option<Pending> {
    if a.Put? || a.id !in pending then None else Some(pending[a.id])
  }

  function Held(pending: map<nat, Pending>, a: Action, p: Option<Pending>): map<nat, Pending> {
    if a.Put? then pending else if p.Some? then pending[a.id := p.value] else pending - {a.id}
  }

  // A step that accesses nothing hears nothing.
  function AnswerTo(db: Db<Content>, x: Option<Access>): Answer {
    if x.Some? then PlainAnswer(db, x.value) else Written
  }

  // Every step of the protocol is its access: the tables afterwards are what the access
  // leaves, and what the operation holds depends on the answer alone.
  lemma StepIsOneAccess(sha: string -> string, s: Sys, a: Action, entropy: (string, string))
    ensures var p := HeldBy(s.pending, a);
      var x := AccessOf(sha, p, a, entropy);
      && Step(sha, s, a).db == (if x.Some? then PlainAfter(sha, s.db, x.value) else s.db)
      && Step(sha, s, a).pending == Held(s.pending, a, Heard(sha, p, a, AnswerTo(s.db, x)))
  {
    var p := HeldBy(s.pending, a);
    if a.Transact? {
      TransactionIsOneAccess(sha, s, a, entropy);
    } else if !a.Put? {
      ReadIsOneAccess(sha, s, a, entropy);
    }
  }

  lemma TransactionIsOneAccess(sha: string -> string, s: Sys, a: Action, entropy: (string, string))
    requires a.Transact?
    ensures var p := HeldBy(s.pending, a);
      var x := AccessOf(sha, p, a, entropy);
      && Step(sha, s, a).db == (if x.Some? then PlainAfter(sha, s.db, x.value) else s.db)
      && Step(sha, s, a).pending == Held(s.pending, a, Heard(sha, p, a, AnswerTo(s.db, x)))
  {
    if a.id in s.pending && !IsReady(s.pending[a.id]) {
      assert s.pending[a.id := s.pending[a.id]] == s.pending;
    }
  }

  lemma ReadIsOneAccess(sha: string -> string, s: Sys, a: Action, entropy: (string, string))
    requires !a.Transact? && !a.Put?
    ensures var p := HeldBy(s.pending, a);
      Read(sha, s, a) == Heard(sha, p, a, AnswerTo(s.db, AccessOf(sha, p, a, entropy)))
  {
  }

  // ---- the protocol over sealed tables ---------------------------------------

  // A step of an operation, or the key being switched on.
  datatype Event = Act(action: Action, entropy: (string, string)) | KeyOn(key: Aead)

  datatype SealedSys = SealedSys(raw: Raw, pending: map<nat, Pending>)

  function SealedStep(sha: string -> string, json: Json, s: SealedSys, e: Event): SealedSys {
    match e
    case KeyOn(k) => s.(raw := SealedAfter(sha, json, s.raw, SwitchOn(k)))
    case Act(a, entropy) =>
      var p := HeldBy(s.pending, a);
      var x := AccessOf(sha, p, a, entropy);
      var answer := if x.Some? then SealedAnswer(json, s.raw, x.value) else Written;
      SealedSys(if x.Some? then SealedAfter(sha, json, s.raw, x.value) else s.raw, Held(s.pending, a, Heard(sha, p, a, answer)))
  }

  // A key that arrives is on from then on, unless one is on already; tables and
  // operations do not move. Only such an event changes the key.
  lemma KeyArrives(sha: string -> string, json: Json, s: SealedSys, e: Event)
    ensures var s' := SealedStep(sha, json, s, e);
      && s'.raw.key == (if e.KeyOn? && s.raw.key.None? then Some(e.key) else s.raw.key)
      && (e.KeyOn? ==> s'.raw.db == s.raw.db && s'.pending == s.pending)
  {
    if e.Act? {
      var x := AccessOf(sha, HeldBy(s.pending, e.action), e.action, e.entropy);
      if x.Some? {
        KeyOnlySwitchesOn(sha, json, s.raw, x.value);
      }
    }
  }

  function SealedRunOf(sha: string -> string, json: Json, key: Key, events: seq<Event>): SealedSys {
    if events == [] then SealedSys(Raw(Db(map[], map[], map[]), key), map[])
    else SealedStep(sha, json, SealedRunOf(sha, json, key, events[..|events| - 1]), events[|events| - 1])
  }

  // The steps of the operations alone.
  function Actions(events: seq<Event>): seq<Action> {
    if events == [] then []
    else Actions(events[..|events| - 1]) + if events[|events| - 1].Act? then [events[|events| - 1].action] else []
  }

  ghost predicate ValidEvent(sha: string -> string, s: SealedSys, e: Event) {
    match e
    case KeyOn(k) => k.Valid()
    case Act(a, entropy) =>
      var x := AccessOf(sha, HeldBy(s.pending, a), a, entropy);
      x.Some? ==> ValidAccess(s.raw.key, x.value)
  }

  ghost predicate Simulates(json: Json, s: SealedSys, t: Sys) {
    Refines(json, s.raw, t.db) && s.pending == t.pending
  }

  lemma ActSimulates(sha: string -> string, json: Json, s: SealedSys, t: Sys, e: Event)
    requires json.Valid() && Simulates(json, s, t) && ValidEvent(sha, s, e) && e.Act?
    ensures Simulates(json, SealedStep(sha, json, s, e), Step(sha, t, e.action))
  {
    var x := AccessOf(sha, HeldBy(s.pending, e.action), e.action, e.entropy);
    StepIsOneAccess(sha, t, e.action, e.entropy);
    if x.Some? {
      AnswersAgree(json, s.raw, t.db, x.value);
      AccessRefines(sha, json, s.raw, t.db, x.value);
    }
  }

  lemma KeyOnSimulates(sha: string -> string, json: Json, s: SealedSys, t: Sys, e: Event)
    requires json.Valid() && Simulates(json, s, t) && ValidEvent(sha, s, e) && e.KeyOn?
    ensures Simulates(json, SealedStep(sha, json, s, e), t)
  {
    AccessRefines(sha, json, s.raw, t.db, SwitchOn(e.key));
  }

  // One event of the sealed protocol, and what it is over plaintext tables.
  lemma EventSimulates(sha: string -> string, json: Json, s: SealedSys, acts: seq<Action>, e: Event)
    requires json.Valid() && Simulates(json, s, Run(sha, acts)) && ValidEvent(sha, s, e)
    ensures Simulates(json, SealedStep(sha, json, s, e), Run(sha, acts + if e.Act? then [e.action] else []))
  {
    if e.Act? {
      RunOneMore(sha, acts, e.action);
      ActSimulates(sha, json, s, Run(sha, acts), e);
    } else {
      assert acts + [] == acts;
      KeyOnSimulates(sha, json, s, Run(sha, acts), e);
    }
  }

  // Keys are valid, and nothing written while the key is off starts with the marker.
  ghost predicate ValidEvents(sha: string -> string, json: Json, key: Key, events: seq<Event>) {
    ValidKey(key) && forall k :: 0 <= k < |events| ==> ValidAt(sha, json, key, events, k)
  }

  ghost predicate ValidAt(sha: string -> string, json: Json, key: Key, events: seq<Event>, k: nat)
    requires k < |events|
  {
    ValidEvent(sha, SealedRunOf(sha, json, key, events[..k]), events[k])
  }

  lemma ValidEventsBefore(sha: string -> string, json: Json, key: Key, events: seq<Event>, n: nat)
    requires n <= |events| && ValidEvents(sha, json, key, events)
    ensures ValidEvents(sha, json, key, events[..n])
  {
    forall k | 0 <= k < n ensures ValidAt(sha, json, key, events[..n], k) {
      assert events[..n][..k] == events[..k] && ValidAt(sha, json, key, events, k);
    }
  }

  // Over every interleaving, whenever the key is switched on, the operations hold what
  // they would hold over plaintext tables, and the sealed tables stand for the
  // plaintext ones of the same interleaving: every property of those runs carries over.
  lemma {:induction false} EncryptedProtocolRefines(sha: string -> string, json: Json, key: Key, events: seq<Event>)
    requires json.Valid() && ValidEvents(sha, json, key, events)
    ensures Simulates(json, SealedRunOf(sha, json, key, events), Run(sha, Actions(events)))
  {
    if events != [] {
      var n := |events| - 1;
      var init := events[..n];
      ValidEventsBefore(sha, json, key, events, n);
      assert ValidAt(sha, json, key, events, n);
      EncryptedProtocolRefines(sha, json, key, init);
      EventSimulates(sha, json, SealedRunOf(sha, json, key, init), Actions(init), events[n]);
    }
  }

  lemma EventEncrypts(sha: string -> string, json: Json, k: Aead, base: Db<Sealed>, s: SealedSys, acts: seq<Action>, e: Event)
    requires k.Valid() && s.raw.key == Some(k) && Simulates(json, s, Run(sha, acts))
    requires EncryptedSince(k, json, base, s.raw.db, Run(sha, acts).db)
    ensures var s', acts' := SealedStep(sha, json, s, e), acts + if e.Act? then [e.action] else [];
      s'.raw.key == Some(k) && EncryptedSince(k, json, base, s'.raw.db, Run(sha, acts').db)
  {
    var t := Run(sha, acts);
    if e.Act? {
      RunOneMore(sha, acts, e.action);
      StepIsOneAccess(sha, t, e.action, e.entropy);
      var x := AccessOf(sha, HeldBy(s.pending, e.action), e.action, e.entropy);
      if x.Some? {
        KeyOnlySwitchesOn(sha, json, s.raw, x.value);
        AccessEncrypts(sha, json, k, base, s.raw, t.db, x.value);
      }
    } else {
      assert acts + [] == acts;
    }
  }

  // After the events the key is on, and rows are encrypted but for those as in base.
  ghost predicate EncryptsSince(sha: string -> string, json: Json, key: Key, k: Aead, base: Db<Sealed>, events: seq<Event>) {
    var s := SealedRunOf(sha, json, key, events).raw;
    s.key == Some(k) && EncryptedSince(k, json, base, s.db, Run(sha, Actions(events)).db)
  }

  lemma OneMoreEventEncrypts(sha: string -> string, json: Json, key: Key, k: Aead, base: Db<Sealed>, init: seq<Event>, e: Event)
    requires json.Valid() && k.Valid() && ValidEvents(sha, json, key, init)
    requires EncryptsSince(sha, json, key, k, base, init)
    ensures EncryptsSince(sha, json, key, k, base, init + [e])
  {
    assert (init + [e])[..|init|] == init;
    EncryptedProtocolRefines(sha, json, key, init);
    EventEncrypts(sha, json, k, base, SealedRunOf(sha, json, key, init), Actions(init), e);
  }

  lemma UpToLast(events: seq<Event>, n: nat)
    requires 0 < n <= |events|
    ensures events[..n] == events[..n - 1] + [events[n - 1]]
  {
  }

  // From the moment the key is on, every row that any step writes has both content
  // columns encrypted under it: m events before it, n after.
  lemma {:induction false} ProtocolRowsAreEncrypted(sha: string -> string, json: Json, key: Key, k: Aead, events: seq<Event>,
                                                    m: nat, n: nat)
    requires json.Valid() && ValidEvents(sha, json, key, events) && m <= n <= |events|
    requires k.Valid() && SealedRunOf(sha, json, key, events[..m]).raw.key == Some(k)
    ensures EncryptsSince(sha, json, key, k, SealedRunOf(sha, json, key, events[..m]).raw.db, events[..n])
    decreases n
  {
    var base := SealedRunOf(sha, json, key, events[..m]).raw.db;
    if n == m {
      NothingWritten(k, json, base, Run(sha, Actions(events[..m])).db);
    } else {
      UpToLast(events, n);
      ProtocolRowsAreEncrypted(sha, json, key, k, events, m, n - 1);
      ValidEventsBefore(sha, json, key, events, n - 1);
      OneMoreEventEncrypts(sha, json, key, k, base, events[..n - 1], events[n - 1]);
    }
  }

  // The same hashes with the same parents.
  ghost predicate SameLinks(raw: map<string, Commit<Sealed>>, view: map<string, Commit<Content>>) {
    && raw.Keys == view.Keys
    && forall h {:trigger raw[h]} :: h in raw ==> raw[h].parent == view[h].parent && raw[h].parent2 == view[h].parent2
  }

  lemma RepresentedHasSameLinks(key: Key, json: Json, raw: Db<Sealed>, view: Db<Content>)
    requires Represents(key, json, raw, view)
    ensures SameLinks(raw.commits, view.commits)
  {
    forall h | h in raw.commits
      ensures raw.commits[h].parent == view.commits[h].parent && raw.commits[h].parent2 == view.commits[h].parent2
    {
      assert SameCommit(key, json, raw.commits[h], view.commits[h]);
    }
  }

  lemma SameLinksLinked(raw: Db<Sealed>, view: Db<Content>)
    requires SameLinks(raw.commits, view.commits) && raw.refs == view.refs && Linked(view)
    ensures Linked(raw)
  {
    forall h | h in raw.commits
      ensures Known(raw.commits, raw.commits[h].parent) && Known(raw.commits, raw.commits[h].parent2)
      ensures raw.commits[h].parent == "" ==> raw.commits[h].parent2 == ""
    {
      var v := view.commits[h];
      assert Known(view.commits, v.parent) && Known(view.commits, v.parent2) && (v.parent == "" ==> v.parent2 == "");
    }
  }

  lemma SameLinksAcyclic(raw: map<string, Commit<Sealed>>, view: map<string, Commit<Content>>)
    requires SameLinks(raw, view) && Acyclic(view)
    ensures Acyclic(raw)
  {
    var rank :| Ranked(view, rank);
    assert Ranked(raw, rank);
  }

  // For one: the sealed tables too stay linked and acyclic over every interleaving.
  lemma SealedRunsStayLinked(sha: string -> string, json: Json, key: Key, events: seq<Event>)
    requires IsDigest(sha) && json.Valid() && ValidEvents(sha, json, key, events)
    ensures var db := SealedRunOf(sha, json, key, events).raw.db; Linked(db) && Acyclic(db.commits)
  {
    EncryptedProtocolRefines(sha, json, key, events);
    EveryRunIsLinkedAndAcyclic(sha, Actions(events));
    var raw, view := SealedRunOf(sha, json, key, events).raw, Run(sha, Actions(events)).db;
    RepresentedHasSameLinks(raw.key, json, raw.db, view);
    SameLinksLinked(raw.db, view);
    SameLinksAcyclic(raw.db.commits, view.commits);
  }
}
