// The Python client's cache in front of a server (adapters/python/promptnet/client.py).
module Clients {
  import opened Serving
  import opened Servers

  class PromptClient {
    const server: Server
    // Zero disables the cache.
    const cacheTtl: int
    var cache: map<string, Entry>

    constructor (server: Server, cacheTtl: int)
      ensures this.server == server && this.cacheTtl == cacheTtl && cache == map[]
    {
      this.server, this.cacheTtl := server, cacheTtl;
      cache := map[];
    }

    // asked, served and received are the client's clock at the lookup, the server's
    // clock, and the client's clock when the answer is there. A pinned read bypasses
    // the cache, and an error answer, which raises, is not cached.
    method Get(uri: string, ref: string, asked: int, served: int, received: int) returns (r: Response)
      requires server.store.Valid()
      modifies this, server.cache
      ensures server.store.Valid()
      ensures ref == "" && (cacheTtl != 0 && uri in old(cache) && old(cache)[uri].expiry > asked) ==>
        r == old(cache)[uri].resp && cache == old(cache) && server.Now() == old(server.Now())
      ensures ref != "" || !(cacheTtl != 0 && uri in old(cache) && old(cache)[uri].expiry > asked) ==>
        (server.Now(), r) == Handle(server.Cfg(), old(server.Now()), Call(GetPrompt(uri, ref), "", served))
      ensures ref != "" || !(cacheTtl != 0 && uri in old(cache) && old(cache)[uri].expiry > asked) ==>
        cache == if ref == "" && cacheTtl != 0 && r.Served? then old(cache)[uri := Entry(r, received + cacheTtl)] else old(cache)
    {
      if ref != "" {
        r := server.GetPrompt(uri, ref, served);
        return;
      }
      if cacheTtl != 0 && uri in cache && cache[uri].expiry > asked {
        return cache[uri].resp;
      }
      r := server.GetPrompt(uri, "", served);
      if cacheTtl != 0 && r.Served? {
        cache := cache[uri := Entry(r, received + cacheTtl)];
      }
    }

    // What the subscription does on a change: drop the entry, then fetch. Whatever was
    // cached before, the answer is the server's own at that time.
    method OnChange(uri: string, asked: int, served: int, received: int) returns (r: Response)
      requires server.store.Valid()
      modifies this, server.cache
      ensures server.store.Valid()
      ensures (server.Now(), r) == Handle(server.Cfg(), old(server.Now()), Call(GetPrompt(uri, ""), "", served))
      ensures cache == if cacheTtl != 0 && r.Served? then old(cache)[uri := Entry(r, received + cacheTtl)] else old(cache) - {uri}
    {
      cache := cache - {uri};
      r := Get(uri, "", asked, served, received);
    }
  }
}
