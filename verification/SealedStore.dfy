// The store over sealed columns: it behaves as the plaintext store, run by run
// (internal/store/store.go and internal/store/crypt.go).
module SealedStore {
  import opened Outcomes
  import opened Encodings
  import opened Columns
  import opened CommitGraph

  // The two content columns as stored.
  datatype Sealed = Sealed(template: string, slots: string)

  // JSON of a list of texts: it reads back, and starts with a bracket or with null.
  datatype Json = Json(marshal: seq<string> -> string, unmarshal: string -> Option<seq<string>>) {
    ghost predicate Valid() {
      forall x :: unmarshal(marshal(x)) == Some(x) && !Marked(marshal(x))
    }
  }

  // Each text escaped and closed by NUL.
  function Listed(x: seq<string>): string {
    if x == [] then "" else Escape(x[0]) + NUL + Listed(x[1..])
  }

  lemma {:induction false} ListedIsInjective(x: seq<string>, y: seq<string>)
    requires Listed(x) == Listed(y)
    ensures x == y
    decreases |x|
  {
    if x != [] && y != [] {
      NulFreeFieldIsDetermined(Escape(x[0]), Listed(x[1..]), Escape(y[0]), Listed(y[1..]));
      EscapeIsInjective(x[0], y[0]);
      ListedIsInjective(x[1..], y[1..]);
      assert x == [x[0]] + x[1..] && y == [y[0]] + y[1..];
    } else {
      assert x != [] ==> |Listed(x)| > 0;
      assert y != [] ==> |Listed(y)| > 0;
    }
  }

  // The laws of Json can be met.
  lemma IdealJsonExists()
    ensures exists json: Json :: json.Valid()
  {
    var marshal := (x: seq<string>) => "[" + Listed(x);
    forall x, y | marshal(x) == marshal(y) ensures x == y {
      assert Listed(x) == marshal(x)[1..] && Listed(y) == marshal(y)[1..];
      ListedIsInjective(x, y);
    }
    var unmarshal := (t: string) => if exists x :: marshal(x) == t then (var x :| marshal(x) == t; Some(x)) else None;
    var json := Json(marshal, unmarshal);
    forall x ensures unmarshal(marshal(x)) == Some(x) && !Marked(marshal(x)) {
      assert marshal(x)[0] == '[';
    }
    assert json.Valid();
  }

  ghost predicate ValidKey(key: Key) {
    key.Some? ==> key.value.Valid()
  }

  function SealContent(key: Key, json: Json, entropy: (string, string), c: Content): Sealed {
    Sealed(Seal(key, entropy.0, c.template), Seal(key, entropy.1, json.marshal(c.slots)))
  }

  function OpenContent(key: Key, json: Json, s: Sealed): Result<Content> {
    var template :- Open(key, s.template);
    var text :- Open(key, s.slots);
    var slots := json.unmarshal(text);
    if slots.None? then Err("slots column") else Ok(Content(template, slots.value))
  }

  lemma OpenUndoesSealContent(key: Key, json: Json, entropy: (string, string), c: Content)
    requires ValidKey(key) && json.Valid()
    ensures OpenContent(key, json, SealContent(key, json, entropy, c)) == Ok(c)
  {
  }

  // Both columns have to open, and the second to be JSON of a list of texts.
  lemma OpenContentExactly(key: Key, json: Json, s: Sealed, c: Content)
    ensures OpenContent(key, json, s) == Ok(c) <==>
      && Open(key, s.template) == Ok(c.template)
      && Open(key, s.slots).Ok? && json.unmarshal(Open(key, s.slots).value) == Some(c.slots)
  {
  }

  // ---- what sealed tables stand for ------------------------------------------

  function WithContent(r: Commit<Sealed>, c: Content): Commit<Content> {
    Commit(r.uri, c, r.versionHash, r.parent, r.parent2, r.author, r.message)
  }

  ghost predicate SameCommit(key: Key, json: Json, r: Commit<Sealed>, v: Commit<Content>) {
    OpenContent(key, json, r.content) == Ok(v.content) && v == WithContent(r, v.content)
  }

  ghost predicate SameRow(key: Key, json: Json, r: Row<Sealed>, v: Row<Content>) {
    OpenContent(key, json, r.content) == Ok(v.content) && v.versionHash == r.versionHash
  }

  // raw stores what view holds, and every column of it opens under the key.
  ghost predicate Represents(key: Key, json: Json, raw: Db<Sealed>, view: Db<Content>) {
    && raw.refs == view.refs && raw.commits.Keys == view.commits.Keys && raw.prompts.Keys == view.prompts.Keys
    && (forall h :: h in raw.commits ==> SameCommit(key, json, raw.commits[h], view.commits[h]))
    && (forall u :: u in raw.prompts ==> SameRow(key, json, raw.prompts[u], view.prompts[u]))
  }

  lemma CommitTxRefines(sha: string -> string, key: Key, json: Json, raw: Db<Sealed>, view: Db<Content>, branch: string,
                        r: Commit<Sealed>, v: Commit<Content>)
    requires Represents(key, json, raw, view) && SameCommit(key, json, r, v)
    ensures CommitHash(sha, r) == CommitHash(sha, v)
    ensures Represents(key, json, CommitTx(sha, raw, branch, r), CommitTx(sha, view, branch, v))
  {
    var raw', view' := CommitTx(sha, raw, branch, r), CommitTx(sha, view, branch, v);
    assert raw'.commits.Keys == view'.commits.Keys && raw'.prompts.Keys == view'.prompts.Keys;
  }

  lemma SetTxRefines(key: Key, json: Json, raw: Db<Sealed>, view: Db<Content>, uri: string, branch: string, hash: string,
                     r: Row<Sealed>, v: Row<Content>)
    requires Represents(key, json, raw, view) && SameRow(key, json, r, v)
    ensures Represents(key, json, SetTx(raw, uri, branch, hash, r), SetTx(view, uri, branch, hash, v))
  {
  }

  lemma PutRefines(key: Key, json: Json, raw: Db<Sealed>, view: Db<Content>, uri: string, r: Row<Sealed>, v: Row<Content>)
    requires Represents(key, json, raw, view) && SameRow(key, json, r, v)
    ensures Represents(key, json, raw.(prompts := raw.prompts[uri := r]), view.(prompts := view.prompts[uri := v]))
  {
  }

  // ---- switching the key on --------------------------------------------------

  // The columns hold the content itself, as they do while no key was ever set.
  ghost predicate InTheClear(json: Json, s: Sealed, c: Content) {
    s == Sealed(c.template, json.marshal(c.slots))
  }

  ghost predicate AllInTheClear(json: Json, raw: Db<Sealed>, view: Db<Content>) {
    && (forall h :: h in raw.commits && h in view.commits ==> InTheClear(json, raw.commits[h].content, view.commits[h].content))
    && (forall u :: u in raw.prompts && u in view.prompts ==> InTheClear(json, raw.prompts[u].content, view.prompts[u].content))
  }

  ghost predicate NoTemplateMarked(view: Db<Content>) {
    && (forall h :: h in view.commits ==> !Marked(view.commits[h].content.template))
    && (forall u :: u in view.prompts ==> !Marked(view.prompts[u].content.template))
  }

  // Before any key was set: plain columns, none of them marked.
  ghost predicate ClearTables(json: Json, raw: Db<Sealed>, view: Db<Content>) {
    AllInTheClear(json, raw, view) && NoTemplateMarked(view)
  }

  lemma CommitTxStaysClear(sha: string -> string, json: Json, raw: Db<Sealed>, view: Db<Content>, branch: string,
                           r: Commit<Sealed>, v: Commit<Content>)
    requires ClearTables(json, raw, view) && raw.commits.Keys == view.commits.Keys
    requires InTheClear(json, r.content, v.content) && !Marked(v.content.template) && v == WithContent(r, v.content)
    ensures ClearTables(json, CommitTx(sha, raw, branch, r), CommitTx(sha, view, branch, v))
  {
    assert CommitHash(sha, r) == CommitHash(sha, v);
  }

  lemma RowStaysClear(json: Json, raw: Db<Sealed>, view: Db<Content>, uri: string, r: Row<Sealed>, v: Row<Content>)
    requires ClearTables(json, raw, view) && InTheClear(json, r.content, v.content) && !Marked(v.content.template)
    ensures ClearTables(json, raw.(prompts := raw.prompts[uri := r]), view.(prompts := view.prompts[uri := v]))
  {
  }

  lemma ClearColumnsOpenIffUnmarked(k: Aead, json: Json, s: Sealed, c: Content)
    requires k.Valid() && json.Valid() && InTheClear(json, s, c)
    ensures OpenContent(Some(k), json, s) == Ok(c) <==> !Marked(c.template)
  {
  }

  // Turning encryption on keeps every stored value readable exactly when no stored
  // template starts with the marker.
  lemma SwitchOnKeepsRowsIff(k: Aead, json: Json, raw: Db<Sealed>, view: Db<Content>)
    requires k.Valid() && json.Valid() && Represents(None, json, raw, view) && AllInTheClear(json, raw, view)
    ensures Represents(Some(k), json, raw, view) <==> NoTemplateMarked(view)
  {
    forall h | h in raw.commits
      ensures SameCommit(Some(k), json, raw.commits[h], view.commits[h]) <==> !Marked(view.commits[h].content.template)
    {
      ClearColumnsOpenIffUnmarked(k, json, raw.commits[h].content, view.commits[h].content);
    }
    forall u | u in raw.prompts
      ensures SameRow(Some(k), json, raw.prompts[u], view.prompts[u]) <==> !Marked(view.prompts[u].content.template)
    {
      ClearColumnsOpenIffUnmarked(k, json, raw.prompts[u].content, view.prompts[u].content);
    }
  }

  // ---- runs ------------------------------------------------------------------

  // One access to the database.
  datatype Access =
    | ReadTip(uri: string, branch: string)
    | ReadRow(uri: string)
    | ReadCommit(hash: string)
    | WriteCommit(branch: string, commit: Commit<Content>, entropy: (string, string))
    | WriteRef(uri: string, name: string, src: string)
    | WriteSet(uri: string, branch: string, hash: string, row: Row<Content>, entropy: (string, string))
    | WriteRow(uri: string, row: Row<Content>, entropy: (string, string))
    | SwitchOn(key: Aead)

  datatype Answer =
    | TipIs(tip: Option<string>)
    | RowIs(row: Option<Row<Content>>)
    | CommitIs(commit: Option<Commit<Content>>)
    | Written
    | Refused
    | Unreadable(message: string)

  function PlainAnswer(db: Db<Content>, a: Access): Answer {
    match a
    case ReadTip(uri, branch) => TipIs(Tip(db, uri, branch))
    case ReadRow(uri) => RowIs(if uri in db.prompts then Some(db.prompts[uri]) else None)
    case ReadCommit(hash) => CommitIs(if hash in db.commits then Some(db.commits[hash]) else None)
    case WriteRef(uri, name, src) => if InsertRef(db, uri, name, src).Done? then Written else Refused
    case _ => Written
  }

  function PlainAfter(sha: string -> string, db: Db<Content>, a: Access): Db<Content> {
    match a
    case WriteCommit(branch, c, _) => CommitTx(sha, db, branch, c)
    case WriteRef(uri, name, src) => var r := InsertRef(db, uri, name, src); if r.Done? then r.value else db
    case WriteSet(uri, branch, hash, row, _) => SetTx(db, uri, branch, hash, row)
    case WriteRow(uri, row, _) => db.(prompts := db.prompts[uri := row])
    case _ => db
  }

  datatype Raw = Raw(db: Db<Sealed>, key: Key)

  function SealCommit(key: Key, json: Json, entropy: (string, string), c: Commit<Content>): Commit<Sealed> {
    Commit(c.uri, SealContent(key, json, entropy, c.content), c.versionHash, c.parent, c.parent2, c.author, c.message)
  }

  function SealRow(key: Key, json: Json, entropy: (string, string), r: Row<Content>): Row<Sealed> {
    Row(SealContent(key, json, entropy, r.content), r.versionHash)
  }

  function SealedAnswer(json: Json, s: Raw, a: Access): Answer {
    match a
    case ReadTip(uri, branch) => TipIs(Tip(s.db, uri, branch))
    case ReadRow(uri) =>
      if uri !in s.db.prompts then RowIs(None)
      else
        var c := OpenContent(s.key, json, s.db.prompts[uri].content);
        if c.Err? then Unreadable(c.message) else RowIs(Some(Row(c.value, s.db.prompts[uri].versionHash)))
    case ReadCommit(hash) =>
      if hash !in s.db.commits then CommitIs(None)
      else
        var c := OpenContent(s.key, json, s.db.commits[hash].content);
        if c.Err? then Unreadable(c.message) else CommitIs(Some(WithContent(s.db.commits[hash], c.value)))
    case WriteRef(uri, name, src) => if InsertRef(s.db, uri, name, src).Done? then Written else Refused
    case _ => Written
  }

  // A key is only ever switched on, not replaced.
  function SealedAfter(sha: string -> string, json: Json, s: Raw, a: Access): Raw {
    match a
    case WriteCommit(branch, c, e) => s.(db := CommitTx(sha, s.db, branch, SealCommit(s.key, json, e, c)))
    case WriteRef(uri, name, src) => var r := InsertRef(s.db, uri, name, src); if r.Done? then s.(db := r.value) else s
    case WriteSet(uri, branch, hash, row, e) => s.(db := SetTx(s.db, uri, branch, hash, SealRow(s.key, json, e, row)))
    case WriteRow(uri, row, e) => s.(db := s.db.(prompts := s.db.prompts[uri := SealRow(s.key, json, e, row)]))
    case SwitchOn(k) => if s.key.None? then s.(key := Some(k)) else s
    case _ => s
  }

  function PlainRun(sha: string -> string, accesses: seq<Access>): (Db<Content>, seq<Answer>) {
    if accesses == [] then (Db(map[], map[], map[]), [])
    else
      var before, a := PlainRun(sha, accesses[..|accesses| - 1]), accesses[|accesses| - 1];
      (PlainAfter(sha, before.0, a), before.1 + [PlainAnswer(before.0, a)])
  }

  function SealedRun(sha: string -> string, json: Json, key: Key, accesses: seq<Access>): (Raw, seq<Answer>) {
    if accesses == [] then (Raw(Db(map[], map[], map[]), key), [])
    else
      var before, a := SealedRun(sha, json, key, accesses[..|accesses| - 1]), accesses[|accesses| - 1];
      (SealedAfter(sha, json, before.0, a), before.1 + [SealedAnswer(json, before.0, a)])
  }

  function WrittenTemplate(a: Access): Option<string> {
    match a
    case WriteCommit(_, c, _) => Some(c.content.template)
    case WriteSet(_, _, _, row, _) => Some(row.content.template)
    case WriteRow(_, row, _) => Some(row.content.template)
    case _ => None
  }

  ghost predicate ValidAccess(key: Key, a: Access) {
    && (a.SwitchOn? ==> a.key.Valid())
    && (key.None? && WrittenTemplate(a).Some? ==> !Marked(WrittenTemplate(a).value))
  }

  // No template written while the key is off starts with the marker.
  ghost predicate ValidRun(sha: string -> string, json: Json, key: Key, accesses: seq<Access>) {
    forall k :: 0 <= k < |accesses| ==> ValidAccess(SealedRun(sha, json, key, accesses[..k]).0.key, accesses[k])
  }

  ghost predicate Refines(json: Json, s: Raw, view: Db<Content>) {
    && ValidKey(s.key) && Represents(s.key, json, s.db, view)
    && (s.key.None? ==> ClearTables(json, s.db, view))
  }

  lemma AnswersAgree(json: Json, s: Raw, view: Db<Content>, a: Access)
    requires Represents(s.key, json, s.db, view)
    ensures SealedAnswer(json, s, a) == PlainAnswer(view, a)
  {
  }

  lemma WriteCommitRefines(sha: string -> string, json: Json, s: Raw, view: Db<Content>, a: Access)
    requires json.Valid() && Refines(json, s, view) && ValidAccess(s.key, a) && a.WriteCommit?
    ensures Refines(json, SealedAfter(sha, json, s, a), PlainAfter(sha, view, a))
  {
    var r := SealCommit(s.key, json, a.entropy, a.commit);
    var raw', view' := CommitTx(sha, s.db, a.branch, r), CommitTx(sha, view, a.branch, a.commit);
    assert Represents(s.key, json, raw', view') by {
      OpenUndoesSealContent(s.key, json, a.entropy, a.commit.content);
      CommitTxRefines(sha, s.key, json, s.db, view, a.branch, r, a.commit);
    }
    if s.key.None? {
      CommitTxStaysClear(sha, json, s.db, view, a.branch, r, a.commit);
    }
  }

  lemma WriteSetRefines(sha: string -> string, json: Json, s: Raw, view: Db<Content>, a: Access)
    requires json.Valid() && Refines(json, s, view) && ValidAccess(s.key, a) && a.WriteSet?
    ensures Refines(json, SealedAfter(sha, json, s, a), PlainAfter(sha, view, a))
  {
    var r := SealRow(s.key, json, a.entropy, a.row);
    var raw', view' := SetTx(s.db, a.uri, a.branch, a.hash, r), SetTx(view, a.uri, a.branch, a.hash, a.row);
    assert Represents(s.key, json, raw', view') by {
      OpenUndoesSealContent(s.key, json, a.entropy, a.row.content);
      SetTxRefines(s.key, json, s.db, view, a.uri, a.branch, a.hash, r, a.row);
    }
    if s.key.None? {
      RowStaysClear(json, s.db, view, a.uri, r, a.row);
      assert ClearTables(json, raw', view');
    }
  }

  lemma WriteRowRefines(sha: string -> string, json: Json, s: Raw, view: Db<Content>, a: Access)
    requires json.Valid() && Refines(json, s, view) && ValidAccess(s.key, a) && a.WriteRow?
    ensures Refines(json, SealedAfter(sha, json, s, a), PlainAfter(sha, view, a))
  {
    var r := SealRow(s.key, json, a.entropy, a.row);
    var raw', view' := s.db.(prompts := s.db.prompts[a.uri := r]), view.(prompts := view.prompts[a.uri := a.row]);
    assert Represents(s.key, json, raw', view') by {
      OpenUndoesSealContent(s.key, json, a.entropy, a.row.content);
      PutRefines(s.key, json, s.db, view, a.uri, r, a.row);
    }
    if s.key.None? {
      RowStaysClear(json, s.db, view, a.uri, r, a.row);
    }
  }

  lemma SwitchOnRefines(sha: string -> string, json: Json, s: Raw, view: Db<Content>, a: Access)
    requires json.Valid() && Refines(json, s, view) && ValidAccess(s.key, a) && a.SwitchOn?
    ensures Refines(json, SealedAfter(sha, json, s, a), PlainAfter(sha, view, a))
  {
    if s.key.None? {
      SwitchOnKeepsRowsIff(a.key, json, s.db, view);
    }
  }

  lemma AccessRefines(sha: string -> string, json: Json, s: Raw, view: Db<Content>, a: Access)
    requires json.Valid() && Refines(json, s, view) && ValidAccess(s.key, a)
    ensures Refines(json, SealedAfter(sha, json, s, a), PlainAfter(sha, view, a))
  {
    match a {
      case WriteCommit(_, _, _) => WriteCommitRefines(sha, json, s, view, a);
      case WriteSet(_, _, _, _, _) => WriteSetRefines(sha, json, s, view, a);
      case WriteRow(_, _, _) => WriteRowRefines(sha, json, s, view, a);
      case SwitchOn(_) => SwitchOnRefines(sha, json, s, view, a);
      case _ =>
    }
  }

  // Over every run, including one where the key is switched on midway, the sealed
  // store gives the answers of the plaintext store.
  lemma {:induction false} EncryptedStoreRefines(sha: string -> string, json: Json, key: Key, accesses: seq<Access>)
    requires json.Valid() && ValidKey(key) && ValidRun(sha, json, key, accesses)
    ensures SealedRun(sha, json, key, accesses).1 == PlainRun(sha, accesses).1
    ensures Refines(json, SealedRun(sha, json, key, accesses).0, PlainRun(sha, accesses).0)
  {
    if accesses != [] {
      var n := |accesses| - 1;
      var init := accesses[..n];
      assert forall k :: 0 <= k < n ==> init[..k] == accesses[..k];
      EncryptedStoreRefines(sha, json, key, init);
      AnswersAgree(json, SealedRun(sha, json, key, init).0, PlainRun(sha, init).0, accesses[n]);
      AccessRefines(sha, json, SealedRun(sha, json, key, init).0, PlainRun(sha, init).0, accesses[n]);
    }
  }

  // ---- what is written under a key is encrypted ------------------------------

  ghost predicate EncryptedContent(k: Aead, json: Json, s: Sealed, c: Content) {
    IsEncrypted(k, s.template, c.template) && IsEncrypted(k, s.slots, json.marshal(c.slots))
  }

  lemma SealContentEncrypts(k: Aead, json: Json, entropy: (string, string), c: Content)
    requires k.Valid()
    ensures EncryptedContent(k, json, SealContent(Some(k), json, entropy, c), c)
    ensures var s := SealContent(Some(k), json, entropy, c);
      && (|entropy.0| == k.nonceSize ==> k.decode(s.template[5..]) == Some(entropy.0 + k.encrypt(entropy.0, c.template)))
      && (|entropy.1| == k.nonceSize ==>
            k.decode(s.slots[5..]) == Some(entropy.1 + k.encrypt(entropy.1, json.marshal(c.slots))))
  {
    SealEncrypts(Some(k), entropy.0, c.template);
    SealEncrypts(Some(k), entropy.1, json.marshal(c.slots));
  }

  // Both content columns of every commit are encrypted, but for rows as they are in base.
  ghost predicate CommitsEncrypted(k: Aead, json: Json, base: map<string, Commit<Sealed>>, raw: map<string, Commit<Sealed>>,
                                   view: map<string, Commit<Content>>) {
    forall h {:trigger raw[h]} :: h in raw ==>
      || (h in base && raw[h] == base[h])
      || (h in view && EncryptedContent(k, json, raw[h].content, view[h].content))
  }

  ghost predicate RowsEncrypted(k: Aead, json: Json, base: map<string, Row<Sealed>>, raw: map<string, Row<Sealed>>,
                                view: map<string, Row<Content>>) {
    forall u {:trigger raw[u]} :: u in raw ==>
      || (u in base && raw[u] == base[u])
      || (u in view && EncryptedContent(k, json, raw[u].content, view[u].content))
  }

  ghost predicate EncryptedSince(k: Aead, json: Json, base: Db<Sealed>, raw: Db<Sealed>, view: Db<Content>) {
    && CommitsEncrypted(k, json, base.commits, raw.commits, view.commits)
    && RowsEncrypted(k, json, base.prompts, raw.prompts, view.prompts)
  }

  lemma NothingWritten(k: Aead, json: Json, raw: Db<Sealed>, view: Db<Content>)
    ensures EncryptedSince(k, json, raw, raw, view)
  {
  }

  lemma CommitInsertEncrypts(k: Aead, json: Json, base: map<string, Commit<Sealed>>, raw: map<string, Commit<Sealed>>,
                             view: map<string, Commit<Content>>, hash: string, r: Commit<Sealed>, v: Commit<Content>)
    requires CommitsEncrypted(k, json, base, raw, view) && EncryptedContent(k, json, r.content, v.content)
    ensures CommitsEncrypted(k, json, base, raw[hash := r], view[hash := v])
  {
  }

  lemma RowInsertEncrypts(k: Aead, json: Json, base: map<string, Row<Sealed>>, raw: map<string, Row<Sealed>>,
                          view: map<string, Row<Content>>, uri: string, r: Row<Sealed>, v: Row<Content>)
    requires RowsEncrypted(k, json, base, raw, view) && EncryptedContent(k, json, r.content, v.content)
    ensures RowsEncrypted(k, json, base, raw[uri := r], view[uri := v])
  {
  }

  lemma CommitTxEncrypts(sha: string -> string, k: Aead, json: Json, base: Db<Sealed>, raw: Db<Sealed>, view: Db<Content>,
                         branch: string, r: Commit<Sealed>, v: Commit<Content>)
    requires EncryptedSince(k, json, base, raw, view) && raw.commits.Keys == view.commits.Keys
    requires v == WithContent(r, v.content) && EncryptedContent(k, json, r.content, v.content)
    ensures EncryptedSince(k, json, base, CommitTx(sha, raw, branch, r), CommitTx(sha, view, branch, v))
  {
    var hash := CommitHash(sha, r);
    assert hash in raw.commits <==> hash in view.commits;
    if hash !in raw.commits {
      CommitInsertEncrypts(k, json, base.commits, raw.commits, view.commits, hash, r, v);
    }
    if branch == MAIN {
      RowInsertEncrypts(k, json, base.prompts, raw.prompts, view.prompts, r.uri, Row(r.content, r.versionHash),
                        Row(v.content, v.versionHash));
    }
  }

  lemma SetTxEncrypts(k: Aead, json: Json, base: Db<Sealed>, raw: Db<Sealed>, view: Db<Content>, uri: string, branch: string,
                      hash: string, r: Row<Sealed>, v: Row<Content>)
    requires EncryptedSince(k, json, base, raw, view) && EncryptedContent(k, json, r.content, v.content)
    ensures EncryptedSince(k, json, base, SetTx(raw, uri, branch, hash, r), SetTx(view, uri, branch, hash, v))
  {
    if branch == MAIN {
      RowInsertEncrypts(k, json, base.prompts, raw.prompts, view.prompts, uri, r, v);
    }
  }

  lemma CommitAccessEncrypts(sha: string -> string, json: Json, k: Aead, base: Db<Sealed>, s: Raw, view: Db<Content>, a: Access)
    requires k.Valid() && s.key == Some(k) && s.db.commits.Keys == view.commits.Keys
    requires EncryptedSince(k, json, base, s.db, view) && a.WriteCommit?
    ensures EncryptedSince(k, json, base, SealedAfter(sha, json, s, a).db, PlainAfter(sha, view, a))
  {
    SealContentEncrypts(k, json, a.entropy, a.commit.content);
    CommitTxEncrypts(sha, k, json, base, s.db, view, a.branch, SealCommit(s.key, json, a.entropy, a.commit), a.commit);
  }

  lemma SetAccessEncrypts(sha: string -> string, json: Json, k: Aead, base: Db<Sealed>, s: Raw, view: Db<Content>, a: Access)
    requires k.Valid() && s.key == Some(k) && s.db.commits.Keys == view.commits.Keys
    requires EncryptedSince(k, json, base, s.db, view) && a.WriteSet?
    ensures EncryptedSince(k, json, base, SealedAfter(sha, json, s, a).db, PlainAfter(sha, view, a))
  {
    SealContentEncrypts(k, json, a.entropy, a.row.content);
    SetTxEncrypts(k, json, base, s.db, view, a.uri, a.branch, a.hash, SealRow(s.key, json, a.entropy, a.row), a.row);
  }

  lemma RowAccessEncrypts(sha: string -> string, json: Json, k: Aead, base: Db<Sealed>, s: Raw, view: Db<Content>, a: Access)
    requires k.Valid() && s.key == Some(k) && s.db.commits.Keys == view.commits.Keys
    requires EncryptedSince(k, json, base, s.db, view) && a.WriteRow?
    ensures EncryptedSince(k, json, base, SealedAfter(sha, json, s, a).db, PlainAfter(sha, view, a))
  {
    SealContentEncrypts(k, json, a.entropy, a.row.content);
    RowInsertEncrypts(k, json, base.prompts, s.db.prompts, view.prompts, a.uri, SealRow(s.key, json, a.entropy, a.row), a.row);
  }

  lemma OtherAccessWritesNoRow(sha: string -> string, json: Json, s: Raw, view: Db<Content>, a: Access)
    requires !a.WriteCommit? && !a.WriteSet? && !a.WriteRow?
    ensures var s', view' := SealedAfter(sha, json, s, a), PlainAfter(sha, view, a);
      && s'.db.commits == s.db.commits && s'.db.prompts == s.db.prompts
      && view'.commits == view.commits && view'.prompts == view.prompts
  {
  }

  // Switching on takes effect unless a key is on already, and nothing else moves the key.
  lemma KeyOnlySwitchesOn(sha: string -> string, json: Json, s: Raw, a: Access)
    ensures SealedAfter(sha, json, s, a).key == if a.SwitchOn? && s.key.None? then Some(a.key) else s.key
    ensures a.SwitchOn? ==> SealedAfter(sha, json, s, a).db == s.db
  {
  }

  // One access by a store whose key is on.
  lemma AccessEncrypts(sha: string -> string, json: Json, k: Aead, base: Db<Sealed>, s: Raw, view: Db<Content>, a: Access)
    requires k.Valid() && s.key == Some(k) && s.db.commits.Keys == view.commits.Keys
    requires EncryptedSince(k, json, base, s.db, view)
    ensures EncryptedSince(k, json, base, SealedAfter(sha, json, s, a).db, PlainAfter(sha, view, a))
  {
    if a.WriteCommit? {
      CommitAccessEncrypts(sha, json, k, base, s, view, a);
    } else if a.WriteSet? {
      SetAccessEncrypts(sha, json, k, base, s, view, a);
    } else if a.WriteRow? {
      RowAccessEncrypts(sha, json, k, base, s, view, a);
    } else {
      OtherAccessWritesNoRow(sha, json, s, view, a);
    }
  }

  lemma ValidBefore(sha: string -> string, json: Json, key: Key, accesses: seq<Access>, n: nat)
    requires n <= |accesses| && ValidRun(sha, json, key, accesses)
    ensures ValidRun(sha, json, key, accesses[..n])
  {
    assert forall k :: 0 <= k < n ==> accesses[..n][..k] == accesses[..k];
  }

  // From the moment the key is on, every row that is written has both content columns
  // encrypted under it; with a key from the start (no accesses before), every row has.
  lemma {:induction false} WrittenRowsAreEncrypted(sha: string -> string, json: Json, key: Key, k: Aead,
                                                   accesses: seq<Access>, later: seq<Access>)
    requires json.Valid() && ValidKey(key) && ValidRun(sha, json, key, accesses + later)
    requires k.Valid() && SealedRun(sha, json, key, accesses).0.key == Some(k)
    ensures var base, s := SealedRun(sha, json, key, accesses).0, SealedRun(sha, json, key, accesses + later).0;
      s.key == Some(k) && EncryptedSince(k, json, base.db, s.db, PlainRun(sha, accesses + later).0)
    decreases |later|
  {
    if later == [] {
      assert accesses + later == accesses;
      NothingWritten(k, json, SealedRun(sha, json, key, accesses).0.db, PlainRun(sha, accesses).0);
    } else {
      var n := |later| - 1;
      var init := accesses + later[..n];
      assert accesses + later == init + [later[n]] && (accesses + later)[..|init|] == init;
      ValidBefore(sha, json, key, accesses + later, |init|);
      WrittenRowsAreEncrypted(sha, json, key, k, accesses, later[..n]);
      OneMoreAccessEncrypts(sha, json, key, k, SealedRun(sha, json, key, accesses).0.db, init, later[n]);
    }
  }

  lemma OneMoreAccessEncrypts(sha: string -> string, json: Json, key: Key, k: Aead, base: Db<Sealed>, init: seq<Access>, a: Access)
    requires json.Valid() && ValidKey(key) && ValidRun(sha, json, key, init)
    requires k.Valid() && SealedRun(sha, json, key, init).0.key == Some(k)
    requires EncryptedSince(k, json, base, SealedRun(sha, json, key, init).0.db, PlainRun(sha, init).0)
    ensures var s := SealedRun(sha, json, key, init + [a]).0;
      s.key == Some(k) && EncryptedSince(k, json, base, s.db, PlainRun(sha, init + [a]).0)
  {
    assert SealedRun(sha, json, key, init).0.db.commits.Keys == PlainRun(sha, init).0.commits.Keys by {
      EncryptedStoreRefines(sha, json, key, init);
    }
    assert (init + [a])[..|init|] == init;
    KeyOnlySwitchesOn(sha, json, SealedRun(sha, json, key, init).0, a);
    AccessEncrypts(sha, json, k, base, SealedRun(sha, json, key, init).0, PlainRun(sha, init).0, a);
  }

  // Answers before and after a write are those of the plaintext tables.
  lemma AnswersAround(sha: string -> string, json: Json, s: Raw, view: Db<Content>, a: Access, question: Access)
    requires json.Valid() && Refines(json, s, view) && ValidAccess(s.key, a)
    ensures SealedAnswer(json, s, question) == PlainAnswer(view, question)
    ensures SealedAnswer(json, SealedAfter(sha, json, s, a), question) == PlainAnswer(PlainAfter(sha, view, a), question)
  {
    AccessRefines(sha, json, s, view, a);
    AnswersAgree(json, s, view, question);
    AnswersAgree(json, SealedAfter(sha, json, s, a), PlainAfter(sha, view, a), question);
  }

  // What a commit wrote is what the next reads answer, key on or off.
  lemma CommitIsReadBack(sha: string -> string, json: Json, s: Raw, view: Db<Content>, branch: string, c: Commit<Content>,
                         entropy: (string, string))
    requires json.Valid() && Refines(json, s, view) && ValidAccess(s.key, WriteCommit(branch, c, entropy))
    ensures var s', hash := SealedAfter(sha, json, s, WriteCommit(branch, c, entropy)), CommitHash(sha, c);
      && SealedAnswer(json, s', ReadTip(c.uri, branch)) == TipIs(Some(hash))
      && SealedAnswer(json, s', ReadCommit(hash))
           == (if hash !in s.db.commits then CommitIs(Some(c)) else SealedAnswer(json, s, ReadCommit(hash)))
      && SealedAnswer(json, s', ReadRow(c.uri))
           == (if branch == "main" then RowIs(Some(Row(c.content, c.versionHash))) else SealedAnswer(json, s, ReadRow(c.uri)))
  {
    var a, hash := WriteCommit(branch, c, entropy), CommitHash(sha, c);
    AnswersAround(sha, json, s, view, a, ReadTip(c.uri, branch));
    AnswersAround(sha, json, s, view, a, ReadCommit(hash));
    AnswersAround(sha, json, s, view, a, ReadRow(c.uri));
    assert hash in s.db.commits <==> hash in view.commits;
  }
}
