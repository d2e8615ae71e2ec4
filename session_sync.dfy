/**
 * The session synchronizer of src/session-sync.ts.
 *
 * `sync` does nothing when session storage already holds `x-session`.
 * Otherwise it sends one GET to the session endpoint and, on a 204 carrying
 * an `x-csrf-token` header, stores that header's value under `x-session`.
 */
module SessionSync {
  import opened Wrappers
  import opened Browser

  const SessionKey: string := "x-session"
  const CsrfHeader: string := "x-csrf-token"

  /** The requests one `sync` sends from a store. */
  function SyncRequests(store: map<string, string>): seq<Request> {
    if SessionKey in store then [] else [SessionRequest]
  }

  /** The store after one `sync` from `store` that receives `reply`. */
  function SyncedStore(store: map<string, string>, reply: Response): (r: map<string, string>)
    ensures store.Keys <= r.Keys
    ensures forall k | k in r && k != SessionKey :: k in store && r[k] == store[k]
  {
    if SessionKey !in store && reply.status == 204 && CsrfHeader in reply.headers
    then store[SessionKey := reply.headers[CsrfHeader]]
    else store
  }

  /** With a token already stored, `sync` sends nothing and changes nothing. */
  lemma SyncWithTokenIsNoOp(store: map<string, string>, reply: Response)
    requires SessionKey in store
    ensures SyncRequests(store) == []
    ensures SyncedStore(store, reply) == store
  {
  }

  /** Without a token, `sync` sends exactly one GET to the session endpoint. */
  lemma SyncWithoutTokenSendsOneGet(store: map<string, string>)
    requires SessionKey !in store
    ensures |SyncRequests(store)| == 1
    ensures SyncRequests(store)[0].Method() == GET
    ensures SyncRequests(store)[0].Url() == "http://localhost:4000/api/session"
  {
  }

  /** Without a token, the store changes exactly when the reply is a 204 with the header. */
  lemma SyncStoresHeaderOn204(store: map<string, string>, reply: Response)
    requires SessionKey !in store
    ensures SyncedStore(store, reply) != store <==> reply.status == 204 && reply.Header(CsrfHeader).Some?
    ensures reply.status == 204 && reply.Header(CsrfHeader).Some? ==>
      SyncedStore(store, reply) == store[SessionKey := reply.Header(CsrfHeader).value]
  {
  }

  /** Once `x-session` is stored, a further `sync` sends nothing and keeps the store. */
  lemma SyncIdempotentOnceSynced(store: map<string, string>, first: Response, second: Response)
    requires SessionKey in SyncedStore(store, first)
    ensures SyncRequests(SyncedStore(store, first)) == []
    ensures SyncedStore(SyncedStore(store, first), second) == SyncedStore(store, first)
  {
  }

  /** After a 204 carrying the header, `x-session` is stored, whatever the store held before. */
  lemma SyncSucceedsOn204WithHeader(store: map<string, string>, reply: Response)
    requires reply.status == 204 && CsrfHeader in reply.headers
    ensures SessionKey in SyncedStore(store, reply)
  {
  }

  /** `createSessionSynchronizer()` with its `sync`; storage and network are injected. */
  class SessionSynchronizer {
    const storage: SessionStorage
    const network: Network

    constructor (storage: SessionStorage, network: Network)
      ensures this.storage == storage && this.network == network
    {
      this.storage := storage;
      this.network := network;
    }

    /** `sync()`, where `reply` is what the GET would receive. */
    method Sync(reply: Response)
      modifies storage, network
      ensures storage.items == SyncedStore(old(storage.items), reply)
      ensures network.sent == old(network.sent) + SyncRequests(old(storage.items))
    {
      if storage.GetItem(SessionKey).Some? {
        return;
      }
      network.Send(SessionRequest);
      var resp := reply;
      if resp.status == 204 {
        var token := resp.Header(CsrfHeader);
        if token.Some? {
          storage.SetItem(SessionKey, token.value);
        }
      }
    }
  }
}
