// The server object and its in-process cache: the handlers as the source runs them,
// each proved against its atomic step (internal/server/server.go and cache.go).
module Servers {
  import opened Outcomes
  import opened Placeholders
  import opened CommitGraph
  import opened Serving
  import opened Stores

  class TtlCache {
    const ttl: int
    var m: map<string, Entry>

    constructor (ttl: int)
      ensures this.ttl == ttl && m == map[]
    {
      this.ttl := ttl;
      m := map[];
    }

    method Get(uri: string, now: int) returns (r: Option<Response>)
      ensures r == if uri in m && now <= m[uri].expiry then Some(m[uri].resp) else None
    {
      if uri !in m || now > m[uri].expiry {
        return None;
      }
      return Some(m[uri].resp);
    }

    method Put(uri: string, resp: Response, now: int)
      modifies this
      ensures m == old(m)[uri := Entry(resp, now + ttl)]
    {
      m := m[uri := Entry(resp, now + ttl)];
    }

    method Invalidate(uri: string)
      modifies this
      ensures m == old(m) - {uri}
    {
      m := m - {uri};
    }
  }

  // A non-positive ttl disables the cache.
  method NewMemCache(ttl: int) returns (c: TtlCache?)
    ensures c == null <==> ttl <= 0
    ensures c != null ==> fresh(c) && c.ttl == ttl && c.m == map[]
  {
    if ttl <= 0 {
      return null;
    }
    c := new TtlCache(ttl);
  }

  class Server {
    const store: Store
    const cache: TtlCache?
    const verdict: Option<(string, string) -> string>
    const notify: bool
    var events: seq<Event>

    constructor (store: Store, cache: TtlCache?, verdict: Option<(string, string) -> string>, notify: bool)
      ensures this.store == store && this.cache == cache && this.verdict == verdict && this.notify == notify && events == []
    {
      this.store, this.cache, this.verdict, this.notify := store, cache, verdict, notify;
      events := [];
    }

    function Cfg(): Config {
      Config(store.sha, if cache == null then None else Some(cache.ttl), verdict, notify)
    }

    ghost function Now(): State
      reads this, store, cache
    {
      State(store.view, if cache == null then map[] else cache.m, events)
    }

    method ClassifyEdit(before: string, after: string) returns (c: string)
      ensures c == Classify(Cfg(), before, after)
    {
      if verdict.None? || before == "" {
        return "";
      }
      c := verdict.value(before, after);
    }

    // The served HEAD moved: drop its cached response, then notify.
    method MainMoved(uri: string, e: Event)
      modifies this`events, cache
      ensures events == Notified(Cfg(), old(events), e)
      ensures cache != null ==> cache.m == old(cache.m) - {uri}
    {
      if cache != null {
        cache.Invalidate(uri);
      }
      if notify {
        events := events + [e];
      }
    }

    // The classification a publish on main announces, unless the content is served already.
    method EditOf(uri: string, content: Content) returns (served: bool, classification: string)
      requires store.Valid()
      ensures served <==> uri in store.view.prompts && store.view.prompts[uri].versionHash == VersionHash(store.sha, content)
      ensures !served && uri in store.view.prompts ==>
        classification == Classify(Cfg(), store.view.prompts[uri].content.template, content.template)
      ensures uri !in store.view.prompts ==> classification == "new"
    {
      var prev := store.Get(uri);
      if !prev.Done? {
        return false, "new";
      }
      if prev.value.versionHash == VersionHash(store.sha, content) {
        return true, "";
      }
      served := false;
      classification := ClassifyEdit(prev.value.content.template, content.template);
    }

    method PublishPrompt(uri: string, template: string, slots: seq<string>, branchName: string, message: string,
                         author: string, entropy: (string, string)) returns (r: Response)
      requires store.Valid()
      modifies this`events, store, cache
      ensures store.Valid()
      ensures (Now(), r) == HandlePublish(Cfg(), old(Now()), uri, Content(template, slots), BranchOr(branchName), author, message)
    {
      var branch := BranchOr(branchName);
      var check := Prompt(uri, template, slots);
      if !check.Valid? {
        return InvalidArgument;
      }
      var content := Content(template, slots);
      var hash := VersionHash(store.sha, content);
      if branch != MAIN {
        var _ := store.Commit(uri, branch, content, author, message, entropy);
        return Published(hash);
      }
      var served, classification := EditOf(uri, content);
      if served {
        return Published(hash);
      }
      var _ := store.Commit(uri, branch, content, author, message, entropy);
      MainMoved(uri, Event(uri, hash, classification));
      return Published(hash);
    }

    method GetByRef(uri: string, ref: string) returns (r: Response)
      requires store.Valid()
      ensures r == HandleGetByRef(Now(), uri, ref)
    {
      var found := store.ResolveRef(uri, ref);
      if !found.Done? {
        return NoSuchThing;
      }
      var (h, c) := found.value;
      var check := Prompt(uri, c.content.template, c.content.slots);
      if !check.Valid? {
        return DataLoss;
      }
      return Served(uri, c.content.template, c.content.slots, c.versionHash, h);
    }

    // What the store alone would answer to a HEAD read.
    method HeadFromStore(uri: string) returns (r: Response)
      requires store.Valid()
      ensures r == HandleGetHead(Cfg().(ttl := None), Now(), uri, 0).1
      ensures r.Served? <==> uri in store.view.prompts && r == HeadResponse(uri, store.view.prompts[uri])
    {
      var row := store.Get(uri);
      if !row.Done? {
        return NoSuchThing;
      }
      var check := Prompt(uri, row.value.content.template, row.value.content.slots);
      if !check.Valid? {
        return DataLoss;
      }
      return HeadResponse(uri, row.value);
    }

    method GetHead(uri: string, now: int) returns (r: Response)
      requires store.Valid()
      modifies cache
      ensures store.Valid()
      ensures (Now(), r) == HandleGetHead(Cfg(), old(Now()), uri, now)
    {
      if cache != null {
        var hit := cache.Get(uri, now);
        if hit.Some? {
          return hit.value;
        }
      }
      r := HeadFromStore(uri);
      if cache != null && r.Served? {
        cache.Put(uri, r, now);
      }
    }

    // The store read and the cache write of one request, with nothing in between.
    method GetPrompt(uri: string, ref: string, now: int) returns (r: Response)
      requires store.Valid()
      modifies cache
      ensures store.Valid()
      ensures (Now(), r) == Handle(Cfg(), old(Now()), Call(Request.GetPrompt(uri, ref), "", now))
    {
      if ref != "" {
        r := GetByRef(uri, ref);
      } else {
        r := GetHead(uri, now);
      }
    }

    // The store's part of CreateBranch: nothing but the tables changes.
    method MakeBranch(uri: string, name: string, from: string) returns (made: Outcome<()>)
      requires store.Valid()
      modifies store
      ensures store.Valid()
      ensures var b := BranchOp(old(store.view), uri, name, from);
        && Now() == old(Now()).(db := if b.Done? then b.value else old(store.view))
        && (made.Done? <==> b.Done?) && (made.BranchNotFound? <==> b.BranchNotFound?) && !made.NotFound?
    {
      made := store.Branch(uri, name, from);
    }

    method CreateBranch(uri: string, name: string, fromName: string) returns (r: Response)
      requires store.Valid() && GoodGraph(store.view)
      modifies store
      ensures store.Valid()
      ensures (Now(), r) == HandleCreateBranch(old(Now()), uri, name, BranchOr(fromName))
    {
      if name == "" {
        return InvalidArgument;
      }
      ghost var db := store.view;
      var made := MakeBranch(uri, name, BranchOr(fromName));
      if !made.Done? {
        return if made.BranchNotFound? then NoSuchThing else Internal;
      }
      var tip := NewestOfNewBranch(db, uri, name, BranchOr(fromName));
      r := BranchCreated(tip);
    }

    // The newest entry of the log of a branch just made from another.
    method NewestOfNewBranch(ghost db: Db<Content>, uri: string, name: string, ghost from: string) returns (h: string)
      requires store.Valid() && GoodGraph(db) && BranchOp(db, uri, name, from) == Done(store.view)
      ensures h == db.refs[(uri, from)]
    {
      NewBranchKeepsGraph(db, uri, name, from);
      var log, hs := store.Log(uri, name);
      assert log.value[0].0 == hs[0];
      h := log.value[0].0;
    }

    method MergeBranch(uri: string, intoName: string, from: string, message: string, author: string, entropy: (string, string))
      returns (r: Response)
      requires store.Valid()
      modifies store, cache
      ensures store.Valid()
      ensures (Now(), r) == HandleMerge(Cfg(), old(Now()), uri, BranchOr(intoName), from, author, message)
    {
      var into := BranchOr(intoName);
      var merged := store.Merge(uri, into, from, author, message, entropy);
      if merged.BranchNotFound? {
        return NoSuchThing;
      }
      if !merged.Done? {
        return Internal;
      }
      if cache != null && into == MAIN {
        cache.Invalidate(uri);
      }
      return Merged(merged.value);
    }

    // The template a change of the branch is compared with: what main serves, if it is main.
    method TemplateBefore(uri: string, branch: string) returns (t: string)
      requires store.Valid()
      ensures t == if branch == MAIN && uri in store.view.prompts then store.view.prompts[uri].content.template else ""
    {
      if branch == MAIN {
        var prev := store.Get(uri);
        if prev.Done? {
          return prev.value.content.template;
        }
      }
      return "";
    }

    // The store's part of SetBranch: nothing but the tables changes.
    method MoveBranch(uri: string, branch: string, hash: string, entropy: (string, string)) returns (r: Outcome<Commit<Content>>)
      requires store.Valid()
      modifies store
      ensures store.Valid() && r == CommitOf(old(store.view), uri, hash)
      ensures Now() == old(Now()).(db :=
        if r.Done? then SetTx(old(store.view), uri, branch, hash, Row(r.value.content, r.value.versionHash)) else old(store.view))
    {
      r := store.SetBranch(uri, branch, hash, entropy);
    }

    method SetBranch(uri: string, branchName: string, commitHash: string, entropy: (string, string)) returns (r: Response)
      requires store.Valid()
      modifies this`events, store, cache
      ensures store.Valid()
      ensures (Now(), r) == HandleSetBranch(Cfg(), old(Now()), uri, BranchOr(branchName), commitHash)
    {
      if commitHash == "" {
        return InvalidArgument;
      }
      var branch := BranchOr(branchName);
      var before := TemplateBefore(uri, branch);
      var c := MoveBranch(uri, branch, commitHash, entropy);
      if !c.Done? {
        return NoSuchThing;
      }
      if branch == MAIN {
        var classification := ClassifyEdit(before, c.value.content.template);
        MainMoved(uri, Event(uri, c.value.versionHash, classification));
      }
      return BranchSet(c.value.versionHash);
    }
  }
}
