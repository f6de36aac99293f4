/** The service worker (`public/sw.js`): cache-name cleanup on activate, the
    routing and caching decisions of the fetch handler, and the background-sync
    replay of queued note mutations. Cache Storage and the network are inputs. */
module ServiceWorker {
  import opened Wrappers
  import Lists
  import OfflineStore
  import Lex
  import KeyedStore

  const CacheName := "notes-app-v1"
  const StaticCache := "notes-static-v1"
  const DynamicCache := "notes-dynamic-v1"
  const SyncTag := "background-sync-notes"

  // ---------------------------------------------------------------------------
  // activate

  predicate Kept(name: string) {
    name == StaticCache || name == DynamicCache
  }

  /** The caches `activate` deletes, in `caches.keys()` order. */
  function CachesToDelete(names: seq<string>): (doomed: seq<string>)
    ensures forall n :: n in doomed <==> n in names && !Kept(n)
  {
    Lists.Filter(names, n => !Kept(n))
  }

  /** The old generic cache goes; the two current ones survive. */
  lemma ActivateDropsOldCache(names: seq<string>)
    ensures CacheName in names ==> CacheName in CachesToDelete(names)
    ensures StaticCache !in CachesToDelete(names) && DynamicCache !in CachesToDelete(names)
  {
  }

  // ---------------------------------------------------------------------------
  // fetch

  datatype Request = Request(verb: string, sameOrigin: bool, pathname: string, destination: string)

  datatype Response = Response(status: int, kind: string, body: string)

  /** What `fetch(request)` did: a response or a rejected promise. */
  datatype NetOutcome = Got(response: Response) | NetworkError

  datatype FetchDecision =
    | NotIntercepted
      /** `respondWith(r)`; `stored` says whether a copy was put in the dynamic cache.
          `r == None` is a rejected or empty respondWith: the page sees a network error. */
    | Served(r: Option<Response>, stored: bool)

  predicate StartsWith(s: string, prefix: string) {
    |prefix| <= |s| && s[..|prefix|] == prefix
  }

  /** The handler leaves non-GET, cross-origin and `/api/` requests to the browser. */
  predicate Intercepts(req: Request) {
    req.verb == "GET" && req.sameOrigin && !StartsWith(req.pathname, "/api/")
  }

  predicate Cacheable(resp: Response) {
    resp.status == 200 && resp.kind == "basic"
  }

  /** Cache first, then network; `cacheHit` is `caches.match(request)` and
      `offlinePage` is `caches.match("/offline")`. */
  function HandleFetch(req: Request, cacheHit: Option<Response>, net: NetOutcome,
                       offlinePage: Option<Response>): (d: FetchDecision)
    ensures d.NotIntercepted? <==> !Intercepts(req)
    ensures Intercepts(req) && cacheHit.Some? ==> d == Served(cacheHit, false)
    ensures d.Served? && d.stored ==> net.Got? && Cacheable(net.response) && d.r == Some(net.response)
    ensures Intercepts(req) && cacheHit.None? && net.Got? ==> d.r == Some(net.response)
    ensures Intercepts(req) && cacheHit.None? && net.NetworkError? ==>
              d == Served(if req.destination == "document" then offlinePage else None, false)
  {
    if !Intercepts(req) then NotIntercepted
    else if cacheHit.Some? then Served(cacheHit, false)
    else match net
      case Got(resp) => Served(Some(resp), Cacheable(resp))
      case NetworkError => Served(if req.destination == "document" then offlinePage else None, false)
  }

  /** A successful same-origin page fetch is stored; an API call never is. */
  lemma FetchStoresExactlyCacheableMisses(req: Request, resp: Response, offlinePage: Option<Response>)
    ensures HandleFetch(req, None, Got(resp), offlinePage).Served? ==>
              (HandleFetch(req, None, Got(resp), offlinePage).stored <==> Cacheable(resp))
    ensures StartsWith(req.pathname, "/api/") ==> HandleFetch(req, None, Got(resp), offlinePage) == NotIntercepted
  {
  }

  // ---------------------------------------------------------------------------
  // sync

  /** The POST sent for one queued entry: the whole record, `action` included. */
  datatype SyncPost = SyncPost(url: string, verb: string, contentType: string, body: OfflineStore.PendingNote)

  function PostFor(note: OfflineStore.PendingNote): SyncPost {
    SyncPost("/api/notes/sync", "POST", "application/json", note)
  }

  /** How the `fetch` of the `i`-th entry ended. */
  datatype PostOutcome = Ok | NotOk | Threw

  /** How one of the IndexedDB helpers `getPendingNotes` / `removePendingNote` ends.
      `Completes`: its request or transaction succeeds. `OpenFails`: `indexedDB.open`
      fails and the helper resolves anyway (with `[]`, or nothing). `Hangs`: nothing
      ever resolves the promise. That happens when `getAll` fails, when the delete
      transaction aborts, or when `db.transaction` throws because the store is missing,
      as in a `NotesDB` that the worker's own `open` created empty. */
  datatype StoreStep = Completes | OpenFails | Hangs

  /** The `i`-th entry is removed: its POST was ok and the delete transaction completed. */
  predicate Removes(outcome: nat -> PostOutcome, remove: nat -> StoreStep, i: nat) {
    outcome(i) == Ok && remove(i) == Completes
  }

  /** The `i`-th entry stalls the loop: its POST was ok and `removePendingNote` never settles. */
  predicate Stalls(outcome: nat -> PostOutcome, remove: nat -> StoreStep, i: nat) {
    outcome(i) == Ok && remove(i) == Hangs
  }

  /** The ids removed by the first `n` iterations. */
  function RemovedIds(snapshot: seq<OfflineStore.PendingNote>, n: nat,
                      outcome: nat -> PostOutcome, remove: nat -> StoreStep): (ids: set<string>)
    requires n <= |snapshot|
    ensures forall id | id in ids :: exists i :: 0 <= i < n && snapshot[i].id == id
  {
    if n == 0 then {}
    else
      var earlier := RemovedIds(snapshot, n - 1, outcome, remove);
      if Removes(outcome, remove, n - 1) then earlier + {snapshot[n - 1].id} else earlier
  }

  /** One more iteration removes the entry's id exactly when its POST was ok and its
      delete transaction completed. */
  lemma RemovedStep(before: map<string, OfflineStore.PendingNote>, pending: map<string, OfflineStore.PendingNote>,
                    snapshot: seq<OfflineStore.PendingNote>, i: nat,
                    outcome: nat -> PostOutcome, remove: nat -> StoreStep)
    requires i < |snapshot|
    requires pending == before - RemovedIds(snapshot, i, outcome, remove)
    ensures (if Removes(outcome, remove, i) then pending - {snapshot[i].id} else pending)
            == before - RemovedIds(snapshot, i + 1, outcome, remove)
  {
  }

  /** Every entry among the first `n` that was removed in its own iteration is gone,
      whatever happened to the entries before it. */
  lemma {:induction false} SucceededRemoved(snapshot: seq<OfflineStore.PendingNote>, n: nat,
                                            outcome: nat -> PostOutcome, remove: nat -> StoreStep, i: nat)
    requires n <= |snapshot| && i < n
    requires Removes(outcome, remove, i)
    ensures snapshot[i].id in RemovedIds(snapshot, n, outcome, remove)
  {
    if i < n - 1 {
      SucceededRemoved(snapshot, n - 1, outcome, remove, i);
    }
  }

  /** With distinct ids, an entry stays queued when the first `n` iterations did not
      reach it, or when its POST was not ok or its delete did not complete. */
  lemma {:induction false} FailedKept(snapshot: seq<OfflineStore.PendingNote>, n: nat,
                                      outcome: nat -> PostOutcome, remove: nat -> StoreStep, i: nat)
    requires n <= |snapshot| && i < |snapshot|
    requires forall a, b :: 0 <= a < b < |snapshot| ==> snapshot[a].id != snapshot[b].id
    requires n <= i || !Removes(outcome, remove, i)
    ensures snapshot[i].id !in RemovedIds(snapshot, n, outcome, remove)
  {
    if n > 0 {
      FailedKept(snapshot, n - 1, outcome, remove, i);
    }
  }

  /** What a run of `syncNotes` did, from the pending store `before` to `after`: the
      entries read, the POSTs sent, and whether its promise settled. */
  ghost predicate Replayed(before: map<string, OfflineStore.PendingNote>, after: map<string, OfflineStore.PendingNote>,
                           read: StoreStep, outcome: nat -> PostOutcome, remove: nat -> StoreStep,
                           snapshot: seq<OfflineStore.PendingNote>, sent: seq<SyncPost>, settled: bool)
  {
    && (read == Completes ==> KeyedStore.ListsInKeyOrder(snapshot, before, OfflineStore.PendingKey))
    && (read != Completes ==> snapshot == [] && sent == [])
    && |sent| <= |snapshot|
    && (forall i :: 0 <= i < |sent| ==> sent[i] == PostFor(snapshot[i]))
    && (forall i :: 0 <= i < |sent| - 1 ==> !Stalls(outcome, remove, i))
    && (|sent| == |snapshot| || (0 < |sent| && Stalls(outcome, remove, |sent| - 1)))
    && (settled <==> read != Hangs && forall i :: 0 <= i < |snapshot| ==> !Stalls(outcome, remove, i))
    && after == before - RemovedIds(snapshot, |sent|, outcome, remove)
  }

  /** `syncNotes`: reads the pending store once (an empty list when the database
      cannot be opened), then POSTs the entries in that order, removing an entry only
      when its response is ok. `read` is how `getPendingNotes` ends; `outcome(i)` and
      `remove(i)` are what the network and `removePendingNote` do for the `i`-th entry.
      A helper that never settles stops the run where it is: `settled` says whether the
      promise handed to `waitUntil` ever settles. */
  method SyncNotes(storage: OfflineStore.OfflineStorage, read: StoreStep,
                   outcome: nat -> PostOutcome, remove: nat -> StoreStep)
    returns (snapshot: seq<OfflineStore.PendingNote>, sent: seq<SyncPost>, settled: bool)
    requires storage.Valid()
    modifies storage`pending
    ensures storage.Valid()
    ensures read == Completes ==> KeyedStore.ListsInKeyOrder(snapshot, old(storage.pending), OfflineStore.PendingKey)
    ensures read != Completes ==> snapshot == [] && sent == []
    ensures |sent| <= |snapshot|
    ensures forall i :: 0 <= i < |sent| ==> sent[i] == PostFor(snapshot[i])
    ensures forall i :: 0 <= i < |sent| - 1 ==> !Stalls(outcome, remove, i)
    ensures |sent| == |snapshot| || (0 < |sent| && Stalls(outcome, remove, |sent| - 1))
    ensures settled <==> read != Hangs && forall i :: 0 <= i < |snapshot| ==> !Stalls(outcome, remove, i)
    ensures storage.pending == old(storage.pending) - RemovedIds(snapshot, |sent|, outcome, remove)
  {
    snapshot := [];
    if read == Completes {
      snapshot := KeyedStore.ListByKey(storage.pending, OfflineStore.PendingKey);
    }
    sent, settled := PostAll(storage, snapshot, outcome, remove);
    settled := settled && read != Hangs;
  }

  /** The loop of `syncNotes` over the snapshot taken before it: a failed POST does not
      stop it, a removal that never settles does. */
  method PostAll(storage: OfflineStore.OfflineStorage, snapshot: seq<OfflineStore.PendingNote>,
                 outcome: nat -> PostOutcome, remove: nat -> StoreStep)
    returns (sent: seq<SyncPost>, settled: bool)
    requires storage.Valid()
    modifies storage`pending
    ensures storage.Valid()
    ensures |sent| <= |snapshot|
    ensures forall i :: 0 <= i < |sent| ==> sent[i] == PostFor(snapshot[i])
    ensures forall i :: 0 <= i < |sent| - 1 ==> !Stalls(outcome, remove, i)
    ensures |sent| == |snapshot| || (0 < |sent| && Stalls(outcome, remove, |sent| - 1))
    ensures settled <==> forall i :: 0 <= i < |snapshot| ==> !Stalls(outcome, remove, i)
    ensures storage.pending == old(storage.pending) - RemovedIds(snapshot, |sent|, outcome, remove)
  {
    sent, settled := [], true;
    var i := 0;
    while i < |snapshot| && settled
      invariant 0 <= i <= |snapshot|
      invariant |sent| == i
      invariant forall j :: 0 <= j < i ==> sent[j] == PostFor(snapshot[j])
      invariant forall j :: 0 <= j < i - 1 ==> !Stalls(outcome, remove, j)
      invariant settled <==> forall j :: 0 <= j < i ==> !Stalls(outcome, remove, j)
      invariant !settled ==> 0 < i && Stalls(outcome, remove, i - 1)
      invariant storage.pending == old(storage.pending) - RemovedIds(snapshot, i, outcome, remove)
      invariant storage.Valid()
    {
      var note := snapshot[i];
      sent := sent + [PostFor(note)];
      RemovedStep(old(storage.pending), storage.pending, snapshot, i, outcome, remove);
      if Removes(outcome, remove, i) {
        KeyedStore.KeyedByRemove(storage.pending, OfflineStore.PendingKey, note.id);
        storage.pending := storage.pending - {note.id};
      } else if Stalls(outcome, remove, i) {
        settled := false;
      }
      i := i + 1;
    }
  }

  /** After the first `n` iterations, an entry they removed is gone, and every other
      queued entry (not reached, POST not ok, or delete not completed) is still there
      unchanged. */
  lemma ReplayOutcome(before: map<string, OfflineStore.PendingNote>, snapshot: seq<OfflineStore.PendingNote>,
                      outcome: nat -> PostOutcome, remove: nat -> StoreStep, n: nat, i: nat)
    requires KeyedStore.ListsInKeyOrder(snapshot, before, OfflineStore.PendingKey)
    requires n <= |snapshot| && i < |snapshot|
    ensures var after := before - RemovedIds(snapshot, n, outcome, remove);
            && (i < n && Removes(outcome, remove, i) ==> snapshot[i].id !in after)
            && (n <= i || !Removes(outcome, remove, i) ==>
                  snapshot[i].id in after && after[snapshot[i].id] == snapshot[i])
  {
    KeyedStore.ListingDistinct(snapshot, before, OfflineStore.PendingKey);
    if i < n && Removes(outcome, remove, i) {
      SucceededRemoved(snapshot, n, outcome, remove, i);
    } else {
      forall a, b | 0 <= a < b < |snapshot| ensures snapshot[a].id != snapshot[b].id {
        assert Lex.Lt(snapshot[a].id, snapshot[b].id);
      }
      FailedKept(snapshot, n, outcome, remove, i);
    }
  }

  /** The `sync` listener: only the notes tag starts a replay; any other tag sends
      nothing and leaves the queue alone. */
  method OnSync(storage: OfflineStore.OfflineStorage, tag: string, read: StoreStep,
                outcome: nat -> PostOutcome, remove: nat -> StoreStep)
    returns (sent: seq<SyncPost>, settled: bool)
    requires storage.Valid()
    modifies storage`pending
    ensures storage.Valid()
    ensures tag != SyncTag ==> sent == [] && settled && storage.pending == old(storage.pending)
    ensures tag == SyncTag ==>
              exists snapshot :: Replayed(old(storage.pending), storage.pending, read, outcome, remove,
                                          snapshot, sent, settled)
  {
    sent, settled := [], true;
    if tag == SyncTag {
      var snapshot;
      snapshot, sent, settled := SyncNotes(storage, read, outcome, remove);
      assert Replayed(old(storage.pending), storage.pending, read, outcome, remove, snapshot, sent, settled);
    }
  }
}
