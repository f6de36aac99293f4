# Notes PWA and invitation page: a verified model

This project models, in Dafny, the logic underneath two small web applications that live in one repository.

- **A notes app** (Next.js with Supabase). Users keep notes with coloured tags. The main pieces modelled are:
  - an IndexedDB-backed offline queue (`OfflineStorage`) and the service worker that replays it against `/api/notes/sync`;
  - the notes page's filter-and-sort pipeline;
  - a sliding-window rate limiter over a Vercel KV sorted set, with its HTTP route;
  - the notes, tags and sync API routes over row-level-secured tables;
  - two translation providers, one with `{param}` and one with `{{param}}` placeholders, and the locale helpers;
  - the React components' state updates: tag pickers, the note form and dialog, the tag manager, the search bar, the tag filter, the grid and the card.
- **A wedding invitation page** (Express and EJS). The model covers the countdown arithmetic, the music button, the section ornaments, the guest-name normalisation, the guestbook validation and the redirect after a message is posted.

One Dafny module models each source file. Code that changes state step by step is modelled as a class with fields, `modifies` clauses and loops with invariants. This covers the offline store, the service worker's replay loop, the rate limiter, the providers and the components. Pure code is modelled as functions with lemmas.

External effects are never performed. The following are parameters of the operations that depend on them:
- what the database, the KV store, IndexedDB or the network answer;
- the signed-in user;
- the clock;
- the key a new row receives.

Shared modules:
- `Wrappers` (Option).
- `Text`: JavaScript string operations (lower-casing, trim, split/join, `includes`, decimal text, `padStart`).
- `Lex`: JavaScript's string order.
- `Lists`: filter and a stable insertion sort with their lemmas.
- `KeyedStore`: key-order listing of a keyed store.
- `Db`: the Supabase tables as values.
- `Entities`: the rows.
- `TagLists`: tag-list updates shared by several components.
- `QueryParams`: `URLSearchParams`.

## Model

| member | source | states |
|---|---|---|
| OfflineStore.CacheOf | lib/offline-storage.ts:93-99 | the cached store after clearing and putting each note is keyed by id and holds exactly the ids of the given notes |
| OfflineStore.CacheOfLastWins | lib/offline-storage.ts:97-99 | when two notes share an id, the later `put` is the one the store keeps |
| OfflineStore.CacheRoundTrip | lib/offline-storage.ts:86-117 | with distinct ids, reading the cache back after `cacheNotes` yields exactly the notes written, no earlier entry survives |
| OfflineStore.OfflineStorage.constructor | lib/offline-storage.ts:12-15 | a wrapper starts with no connection over stores that are keyed by `id` |
| OfflineStore.OfflineStorage.Init | lib/offline-storage.ts:17-45 | `init` holds a connection afterwards exactly when `indexedDB.open` succeeded |
| OfflineStore.OfflineStorage.EnsureOpen | lib/offline-storage.ts:48 | `if (!this.db) await this.init()`: open is attempted only while no connection is held, and the call can go on exactly when a connection exists afterwards |
| OfflineStore.OfflineStorage.AddPendingNote | lib/offline-storage.ts:47-58 | on success the pending store maps `note.id` to `note` (an upsert), on failure it is unchanged; the cached store is never touched |
| OfflineStore.OfflineStorage.GetPendingNotes | lib/offline-storage.ts:60-71 | on success the list holds every pending entry exactly once in primary-key order, not enqueue order; a failed call yields nothing |
| OfflineStore.OfflineStorage.RemovePendingNote | lib/offline-storage.ts:73-84 | on success exactly the key `id` is deleted from the pending store; the cached store is never touched |
| OfflineStore.OfflineStorage.CacheNotes | lib/offline-storage.ts:86-104 | one transaction: on success the cached store is the clear-then-put result of the notes, on failure it is unchanged; the pending store is never touched |
| OfflineStore.OfflineStorage.GetCachedNotes | lib/offline-storage.ts:106-117 | on success the list holds every cached entry exactly once in id order |
| OfflineStore.AddedNoteListedOnce | lib/offline-storage.ts:47-71 | after `addPendingNote(n)`, `getPendingNotes()` lists `n`, and lists it exactly once |
| OfflineStore.UpsertOverwrites | lib/offline-storage.ts:53 | adding a second note with the same id overwrites the first rather than adding an entry |
| OfflineStore.RemoveIdempotent | lib/offline-storage.ts:79 | removing twice is removing once, and every other entry is kept unchanged |
| ServiceWorker.CachesToDelete | public/sw.js:36-42 | `activate` deletes exactly the caches named neither `notes-static-v1` nor `notes-dynamic-v1` |
| ServiceWorker.ActivateDropsOldCache | public/sw.js:1-3 | the old `notes-app-v1` cache is deleted and the two current caches never are |
| ServiceWorker.HandleFetch | public/sw.js:51-100 | only same-origin GETs outside `/api/` are intercepted; a cache hit is served first; only a status-200 `basic` response is stored; a failed network fetch falls back to `/offline` for documents and to nothing otherwise |
| ServiceWorker.FetchStoresExactlyCacheableMisses | public/sw.js:66-90 | a cache miss stores the network response exactly when it is cacheable, and an `/api/` request is never intercepted |
| ServiceWorker.RemovedIds | public/sw.js:114-131 | the ids removed by the first `n` iterations all belong to entries among those `n` |
| ServiceWorker.RemovedStep | public/sw.js:124-127 | one more iteration removes the entry's id exactly when its POST was ok and its delete transaction completed |
| ServiceWorker.SucceededRemoved | public/sw.js:124-127 | every entry whose POST succeeded and whose delete completed is removed, whatever happened to the entries before it |
| ServiceWorker.FailedKept | public/sw.js:124-131 | with distinct ids, an entry is never removed when the loop did not reach it, its POST was not ok or threw, or its delete did not complete |
| ServiceWorker.SyncNotes | public/sw.js:109-178 | reads the pending store once (nothing, and no request, when the database does not open or the read never settles), then sends one POST of the whole record to `/api/notes/sync` per entry in the order read, stopping right after an entry whose removal never settles; the pending store loses exactly the ids removed by the iterations that ran, and the promise settles exactly when no helper hung |
| ServiceWorker.PostAll | public/sw.js:114-131 | the loop over the snapshot: one POST per entry in order; a failed POST does not stop it, a removal that never settles does, right after that entry; only ok entries whose delete completed are removed |
| ServiceWorker.ReplayOutcome | public/sw.js:109-178 | after any number of iterations, an entry they removed is gone and every other queued entry (not reached, POST failed, delete not completed) is still there unchanged |
| ServiceWorker.OnSync | public/sw.js:102-107 | only the tag `background-sync-notes` starts the replay, with its full effect and its settling; any other tag sends nothing, settles and leaves the queue unchanged |
| NotesPage.UntaggedFailsSelection | app/notes/page.tsx:95-100 | a note without `note_tags` fails any non-empty tag selection |
| NotesPage.SomeNameHas | app/notes/page.tsx:89 | `some` over the joined tags: a match means some visible tag's lowercased name holds the query; when every join row reached its tag it answers whether any name matches; it throws only when some tag is `null` |
| NotesPage.SomeNameHasThrows | app/notes/page.tsx:89 | `some` throws exactly when a `null` tag comes before every matching one |
| NotesPage.JoinedIds | app/notes/page.tsx:97 | the ids of the joined tags, one per row in order, and a throw exactly when some joined tag is `null` |
| NotesPage.TextTest | app/notes/page.tsx:86-91 | the text test throws only on a note with a `null` joined tag, and on a note without one it is the title, content or tag-name match |
| NotesPage.TagTest | app/notes/page.tsx:96-99 | the tag test throws exactly on a note with a `null` joined tag, and otherwise says every selected id is among the note's tag ids |
| NotesPage.PassesJoined | app/notes/page.tsx:84-110 | for a note whose join rows all reached their tags, passing means the text match (when searched), every selected tag, and the date range |
| NotesPage.NullTagBreaksSelection | app/notes/page.tsx:95-100 | with a tag selected and no text search, one note with a `null` joined tag makes the filter throw |
| NotesPage.PipelineThrows | app/notes/page.tsx:84-100 | the text step followed by the tag step throws exactly in the cases `Throws` names |
| NotesPage.PipelineFilters | app/notes/page.tsx:84-110 | when nothing throws, the three steps keep exactly the passing notes in their original order |
| NotesPage.PassingSplits | app/notes/page.tsx:84-110 | a note passes exactly when each of the three steps keeps it |
| NotesPage.SortedPassing | app/notes/page.tsx:112-138 | sorting the passing notes is a permutation of them, holds exactly the notes that pass, and is ordered by the chosen key |
| NotesPage.Compare | app/notes/page.tsx:113-136 | the comparator returns -1, 0 or 1, and 0 exactly when neither key is smaller |
| NotesPage.KeyLessAsym | app/notes/page.tsx:117-133 | the chosen key (lowercased title, `created_at` or, for any other value, `updated_at`) is never smaller in both directions |
| NotesPage.KeyNotLessTrans | app/notes/page.tsx:117-133 | "not smaller" on the chosen key is transitive |
| NotesPage.CompareAntisymmetric | app/notes/page.tsx:133-135 | swapping the arguments negates the comparator, so it is a consistent comparator for `sort` |
| NotesPage.PrecedesMeaning | app/notes/page.tsx:133-134 | ascending order puts `a` first only when its key is not greater, descending only when it is not smaller |
| NotesPage.PrecedesIsTotalPreorder | app/notes/page.tsx:113-136 | the comparator induces a total preorder for every key and order |
| NotesPage.SortOutcome | app/notes/page.tsx:113-136 | sorting is a permutation of its input and orders it by the chosen key and direction |
| NotesPage.Step | app/notes/page.tsx:84-110 | an active step throws exactly when its test throws on some element, and otherwise keeps exactly the elements that pass, in order; an inactive step keeps the list as is |
| NotesPage.FilterAndSortNotes | app/notes/page.tsx:80-139 | throws exactly when the text test throws on some note, or the tag test throws on a note the text filter kept, and never when every join row reached its tag; otherwise the result is a permutation of the notes that pass every active filter (text only when the trimmed query is non-empty, the selected tags when any, the inclusive date range), sorted by the chosen key; with no active filter it is a permutation of all notes |
| NotesPage.HandleDeleteNote | app/notes/page.tsx:141-155 | without confirmation or an ok response the list is unchanged; otherwise exactly the notes with that id are removed |
| NotesPage.DeleteIdempotent | app/notes/page.tsx:150 | deleting the same id again changes nothing |
| RateLimit.Key | lib/rate-limit.ts:15 | the storage key is `rate_limit:` followed by the identifier |
| RateLimit.KeyInjective | lib/rate-limit.ts:15 | different identifiers never share a sorted set |
| RateLimit.CountInRange | lib/rate-limit.ts:21-22 | the current count is the number of scores in `[now - window, now]` and never exceeds the set's size |
| RateLimit.Prune | lib/rate-limit.ts:41 | `zremrangebyscore(key, 0, windowStart)` keeps exactly the scores outside `[0, windowStart]` |
| RateLimit.MinScore | lib/rate-limit.ts:26-27 | `zrange(key, 0, 0)` reports the lowest stored score |
| RateLimit.DecideWhenFull | lib/rate-limit.ts:24-35 | at or over the limit the rejecting path is taken |
| RateLimit.DecideWithRoom | lib/rate-limit.ts:37-49 | below the limit the accepting path is taken with the current count |
| RateLimit.RateLimiter.constructor | lib/rate-limit.ts:1 | the limiter starts from the store's existing sets |
| RateLimit.RateLimiter.RateLimit | lib/rate-limit.ts:10-60 | the call's result and the set of its own key afterwards are what the sliding-window decision gives; every other key's set is unchanged |
| RateLimit.RateLimiter.Record | lib/rate-limit.ts:37-49 | the accepting path adds `now`, then prunes, then sets the expiry, and the first call that throws ends it with the fail-open result |
| RateLimit.RateLimiter.SetScores | lib/rate-limit.ts:38-41 | a write replaces one key's set and touches no other key |
| RateLimit.RejectStoresNothing | lib/rate-limit.ts:24-35 | at the limit: `success` false, `remaining` 0, nothing stored, and `reset` is the oldest score plus `window`, or `now + window` for an empty set |
| RateLimit.AcceptAddsOne | lib/rate-limit.ts:37-49 | below the limit: `success` true, `remaining = limit - count - 1 >= 0`, `reset = now + window`, and exactly one score `now` is added before stale scores are pruned |
| RateLimit.FilterCount | lib/rate-limit.ts:41 | pruning keeps every occurrence of a score it does not drop |
| RateLimit.FailsOpen | lib/rate-limit.ts:50-59 | any store failure gives `success` true, `remaining = limit - 1` and `reset = now + window` |
| RateLimit.NeverOverLimit | lib/rate-limit.ts:24-41 | without store failures and with a clock that does not run backwards, a set never holds more than `limit` scores |
| RateLimit.RejectResetNotPast | lib/rate-limit.ts:27 | on a well-formed set, a rejection's reset time is never earlier than `now` |
| RateLimit.RateLimitHeaders | lib/rate-limit.ts:62-68 | exactly the three headers `X-RateLimit-Limit`, `X-RateLimit-Remaining` and `X-RateLimit-Reset` |
| RateLimit.HeadersRoundTrip | lib/rate-limit.ts:64-66 | each header value reads back as exactly the number it was made from |
| RateLimitRoute.LookupAsWritten | app/api/auth/rate-limit/route.ts:16-21 | `limits[action]` as written: `login` is 5 per 900000 ms, `register` 3 per 3600000 ms, and an inherited object member is found too, without limit or window |
| RateLimitRoute.Lookup | app/api/auth/rate-limit/route.ts:16-24 | the intended table: an entry exactly for `login` and `register`, each with a limit and a window |
| RateLimitRoute.LookupsAgreeOnOwnNames | app/api/auth/rate-limit/route.ts:21 | the two lookups differ only on inherited names |
| RateLimitRoute.InheritedActionAccepted | app/api/auth/rate-limit/route.ts:21-24 | as written, `toString` passes the `!config` test and gets the library defaults 5 and 60000 |
| RateLimitRoute.ClientIp | app/api/auth/rate-limit/route.ts:26-31 | the trimmed first field of `x-forwarded-for` when non-empty, else `x-real-ip`, else `request.ip`, else `127.0.0.1`; never empty |
| RateLimitRoute.ForwardedClient | app/api/auth/rate-limit/route.ts:26-28 | the forwarded client address, the first field of `x-forwarded-for` trimmed, holds no comma and has no edge whitespace |
| RateLimitRoute.IdentifierSeparatesActions | app/api/auth/rate-limit/route.ts:33 | two different actions without `:` never share a limiter key, whatever the addresses |
| RateLimitRoute.Plan | app/api/auth/rate-limit/route.ts:9-34 | the intended handler: a falsy action (absent, `null`, `""`, `0`, `false`) gives 400 "Missing 'action'"; an action whose property key is neither `login` nor `register` gives 400 "Invalid action"; `login`/`register` call the limiter on `action:ip` with their own limit and window |
| RateLimitRoute.PlanAsWritten | app/api/auth/rate-limit/route.ts:9-34 | the handler as written agrees with the intended one except on an action whose property key is an inherited object member, which reaches the limiter on `key:ip` with the defaults 5 and 60000 |
| RateLimitRoute.InheritedActionReachesLimiter | app/api/auth/rate-limit/route.ts:21-34 | as written, action `toString` reaches the limiter with the default limits, where the intended lookup answers 400 |
| RateLimitRoute.ScalarActionInvalid | app/api/auth/rate-limit/route.ts:9-24 | a truthy number or `true` passes the presence test and then answers 400 "Invalid action" |
| RateLimitRoute.NumeralNamesNothing | app/api/auth/rate-limit/route.ts:16-21 | the text of an integer names neither a table entry nor an inherited member |
| RateLimitRoute.SingletonArrayActsAsElement | app/api/auth/rate-limit/route.ts:21-33 | an array action is looked up by its joined text, so `["login"]` is limited exactly as `login` |
| RateLimitRoute.Respond | app/api/auth/rate-limit/route.ts:36-45 | a rejection gives 429 with `resetTime`, an acceptance 200, and both carry the rate-limit headers |
| RateLimitRoute.Post | app/api/auth/rate-limit/route.ts:4-50 | the handler as written: an escaping error gives 500 and leaves the store alone; an early answer leaves the store alone; otherwise the response and the key's new set are the limiter's decision for that request, and every other key's set is unchanged |
| RateLimitRoute.Get | app/api/auth/rate-limit/route.ts:52-54 | `GET` answers 405 "Method not allowed" without headers |
| RateLimitRoute.Options | app/api/auth/rate-limit/route.ts:55-57 | `OPTIONS` answers 200 `{ ok: true }` without headers |
| Db.Caller | app/api/notes/route.ts:11-13 | the route acts for a user exactly when `getUser` reported no error and returned a user |
| Db.VisibleNotes | app/api/notes/route.ts:15-27 | under row-level security a user sees exactly the `notes` rows whose `user_id` is theirs, unchanged |
| Db.VisibleTags | app/api/tags/route.ts:15 | a user sees exactly the `tags` rows whose `user_id` is theirs, unchanged |
| Db.VisibleKeyed | app/api/notes/route.ts:15-27 | what a user sees is still keyed by the `id` primary key |
| Entities.TagIds | components/note-form.tsx:66 | the ids of a tag list, one per tag, in order; an id is listed exactly when some tag carries it |
| SyncRoute.Post | app/api/notes/sync/route.ts:4-57 | 401 without a user; a body that is not JSON or is `null` gives 500 "Failed to sync note"; 400 "Invalid action" for any action but `create`, `update` and `delete`; none of these change anything; 200 `{success:true}` exactly when a known action's statement succeeds; a failed statement gives 500 and no change; a successful `create` adds exactly one row, owned by the caller, with the posted title and content; rows of other users and the caller's other rows are never changed, and only `create` adds a row |
| SyncRoute.Apply | app/api/notes/sync/route.ts:20-42 | the statements never touch the tag tables; `update` and `delete` add no key and change only the caller's row with the given id |
| SyncRoute.UpdateSetsTitleAndContent | app/api/notes/sync/route.ts:29-38 | `update` on the caller's row changes exactly its title and content and no key |
| SyncRoute.UpdateDeleteIdempotent | app/api/notes/sync/route.ts:29-42 | replaying a successful `update` or `delete` changes nothing further |
| SyncRoute.DeleteRemovesOwnedRow | app/api/notes/sync/route.ts:40-42 | after `delete` the caller owns no row with that id |
| SyncRoute.CreateTwiceAddsTwoRows | app/api/notes/sync/route.ts:21-27 | `create` ignores the client id, so replaying it adds a second row |
| SyncRoute.QueuedEntryNeverInvalid | app/api/notes/sync/route.ts:20-46 | every entry the offline queue holds names a known action, so its replay by a signed-in user ends in 200 or 500, never 400 |
| NotesRoute.Rows | app/api/notes/route.ts:33 | the `notes` rows of the answer, one per element, in order |
| NotesRoute.Listed | app/api/notes/route.ts:15-27 | the caller's visible rows, each exactly once, ordered by `updated_at` descending |
| NotesRoute.Get | app/api/notes/route.ts:4-34 | 401 without a user; 500 with the message on a query error; otherwise 200 with each visible note exactly once, newest update first, each with its visible tag associations embedded |
| NotesRoute.Post | app/api/notes/route.ts:36-80 | 401 without a user; a body that is not a JSON object gives the framework's 500 and writes nothing; a failed insert gives 500 and writes nothing, tag rows included; otherwise the note is inserted and the answer is 201 with the new row, or the framework's 500 when `tagIds` is truthy with a positive length but no `map` (the note stays, untagged); the note inserted under the generated key, and one association per tag id appended only when `tagIds` is non-empty and that insert succeeded, a failed tag insert still answering 201 |
| NotesRoute.UnmappableTagIdsKeepNote | app/api/notes/route.ts:50-70 | a `tagIds` without `map` answers 500 yet leaves the new note visible to its owner, with no associations |
| NotesRoute.PostedNoteAssociations | app/api/notes/route.ts:50-77 | after a successful `POST` the note is visible to its owner only, and its associations are exactly one per requested tag id, in request order, carrying the note's and the user's ids |
| NotesRoute.InsertVisibleToOwner | app/api/notes/route.ts:50-56 | a row inserted under a new key is visible to its owner and changes no other user's view |
| NotesRoute.LinksAppended | app/api/notes/route.ts:72 | association rows appended for a note that had none are exactly that note's rows afterwards |
| TagsRoute.ByNameIsTotalPreorder | app/api/tags/route.ts:15 | `order("name")` compares names by a total preorder |
| TagsRoute.Get | app/api/tags/route.ts:4-22 | 401 without a user; 500 with the message on a query error; otherwise 200 with each of the caller's tags exactly once, ordered by name |
| TagsRoute.StoredColor | app/api/tags/route.ts:41 | a missing or empty colour is stored as `#3b82f6`, any other as given |
| TagsRoute.Post | app/api/tags/route.ts:24-52 | 401 without a user; a body that is not a JSON object gives the framework's 500 and no change; a failed insert gives 500 and no change; otherwise 201 with the new row holding the name exactly as sent, the stored colour and the caller's id, and only that row added |
| TagsRoute.PostedTagVisible | app/api/tags/route.ts:37-51 | a created tag is visible to its owner with its name untrimmed, and no other user's tags change |
| Locales.Parse | lib/use-translations.tsx:36 | a stored code is accepted exactly when it is `en`, `id` or `ar` |
| Locales.CodeRoundTrip | lib/i18n.ts:1 | each locale's code reads back as that locale and only that one, and `locales` lists each locale once |
| Locales.Direction | lib/i18n.ts:6-8 | `getDirection` is `rtl` exactly for Arabic and `ltr` otherwise |
| Locales.DisplayName | lib/i18n.ts:10-17 | every locale has a non-empty display name |
| Locales.DisplayNamesDistinct | lib/i18n.ts:11-15 | different locales are shown under different names |
| Messages.ArrayIndex | lib/use-translations.tsx:60 | the keys that index a string are the canonical decimal numerals |
| Messages.Child | lib/use-translations.tsx:60 | `value?.[k]` is the entry `k` of an object holding it, the one-character string at index `k` of a string, and nothing otherwise |
| Messages.WalkAppend | lib/use-translations.tsx:59-61 | walking a key path is walking its first part and then continuing with the rest |
| Messages.WalkMissing | lib/use-translations.tsx:60 | once the walk reaches `undefined` it stays there |
| Messages.Resolve | lib/use-translations.tsx:56-66 | the lookup loop splits the key on `.` and steps through the catalogue, ending with the string found or with nothing |
| Messages.WalkNest | lib/i18n.tsx:43-48 | a path leads to the string stored at its end |
| Messages.DottedKeyFindsNested | lib/use-translations.tsx:56-61 | a dotted key of dot-free segments finds the string nested under those segments |
| Messages.MissingSegmentFindsNothing | lib/use-translations.tsx:63-66 | a key whose first segment is absent finds no string |
| Messages.StringSegmentPicksCharacter | lib/use-translations.tsx:56-66 | a segment after a string indexes it: with `{greeting: "Hello"}` the key `greeting.0` finds `"H"` |
| UseTranslations.ExpandPlain | lib/use-translations.tsx:70 | a replacement without `$` is inserted as written |
| UseTranslations.ReplaceFirst | lib/use-translations.tsx:70 | `str.replace` of a string pattern leaves a string without the pattern unchanged |
| UseTranslations.ReplaceFirstAt | lib/use-translations.tsx:70 | with its first occurrence at `i` and no `$` in the replacement, exactly that occurrence is rewritten and everything around it is kept |
| UseTranslations.SubstituteAppend | lib/use-translations.tsx:70 | params are applied one after another in entry order |
| UseTranslations.OnlyFirstOccurrence | lib/use-translations.tsx:70 | only the first `{n}` is rewritten and a later one stays |
| UseTranslations.EarlierInsertionRewritten | lib/use-translations.tsx:70 | text inserted by an earlier param is rewritten by a later one |
| UseTranslations.DollarPatternExpands | lib/use-translations.tsx:70 | a `$&` in a param value re-inserts the placeholder instead of the text |
| UseTranslations.MissingKeyEchoed | lib/use-translations.tsx:63-66 | a key that does not end on a string comes back as the key itself |
| UseTranslations.TranslationProvider.constructor | lib/use-translations.tsx:29-31 | the first render uses the default locale |
| UseTranslations.TranslationProvider.Mount | lib/use-translations.tsx:33-39 | a stored `en`, `id` or `ar` is adopted and anything else keeps the current locale |
| UseTranslations.TranslationProvider.SetLocale | lib/use-translations.tsx:46-53 | the locale, its stored code, the document `lang` and the direction change together, the direction being `rtl` exactly for Arabic |
| UseTranslations.TranslationProvider.T | lib/use-translations.tsx:55-74 | `t` returns the key when nothing is found, the found string without params, and otherwise the sequential first-occurrence substitution |
| I18nProvider.WordRun | lib/i18n.tsx:57 | the run of `\w` characters a string starts with |
| I18nProvider.PlaceholderAt | lib/i18n.tsx:57 | a match of `\{\{(\w+)\}\}` has a non-empty name and fits in the string |
| I18nProvider.NoPlaceholderUnchanged | lib/i18n.tsx:57 | text without `{{`, single-brace `{x}` included, passes through unchanged |
| I18nProvider.EmptyParamsUnchanged | lib/i18n.tsx:58 | with no params every placeholder is left as written |
| I18nProvider.PlaceholderReplaced | lib/i18n.tsx:56-60 | a placeholder becomes its param's text, or stays when the param is missing or renders empty, and the scan resumes after it |
| I18nProvider.WordRunOf | lib/i18n.tsx:57 | the word run ends at the first non-word character |
| I18nProvider.NoRescan | lib/i18n.tsx:57 | inserted text is not scanned again, even when it looks like a placeholder |
| I18nProvider.Provider.IsRtl | lib/i18n.tsx:65 | `isRTL` holds exactly for Arabic and agrees with the document direction once the effect has run |
| I18nProvider.Provider.constructor | lib/i18n.tsx:22-23 | the first render uses `en` |
| I18nProvider.Provider.Sync | lib/i18n.tsx:33-40 | the `[language]` effect stores the language and sets the document direction and `lang` |
| I18nProvider.Provider.Mount | lib/i18n.tsx:25-40 | after mounting, a saved `en`, `id` or `ar` is the language, anything else keeps it, and storage and document agree with it |
| I18nProvider.Provider.SetLanguage | lib/i18n.tsx:23-40 | choosing a language stores it and updates the document |
| I18nProvider.Provider.T | lib/i18n.tsx:42-63 | `t` returns the key when nothing is found, the found string without params, and otherwise the one-pass `{{word}}` interpolation |
| SearchFilters.ToggleTag | components/search-filters.tsx:69-75 | a selected id is dropped wherever it occurs and an unselected one is appended, so the id ends up selected exactly when it was not |
| SearchFilters.ToggleTwice | components/search-filters.tsx:69-75 | toggling an unselected id twice restores the selection |
| SearchFilters.ClearFilters | components/search-filters.tsx:77-83 | every filter goes back to its default (no tags, no dates, `updated_at`, descending) and the query is kept |
| SearchFilters.ClearedIsInactive | components/search-filters.tsx:85-86 | after clearing, the "filters active" badge is off, and it is off exactly for settings that clearing leaves unchanged |
| SearchFilters.FlipOrder | components/search-filters.tsx:190 | the sort-order button always changes the order |
| SearchFilters.FlipTwice | components/search-filters.tsx:190 | pressing it twice restores the order |
| TagSelector.FilteredTags | components/tag-selector.tsx:53-57 | exactly the fetched tags whose lowercased name contains the lowercased query and whose id is not selected, as a sub-multiset of the fetched list |
| TagSelector.FilteredTagsConcat | components/tag-selector.tsx:53-57 | the offered tags keep the fetched order: filtering a concatenation is the concatenation of the filtered parts |
| TagSelector.EmptyQueryOffersUnselected | components/tag-selector.tsx:53-57 | an empty query offers every unselected tag in fetched order, and with nothing selected the whole list |
| TagSelector.Notice | components/tag-selector.tsx:89-95 | "Loading tags..." while loading, otherwise for an empty list "No tags found" with a query and "No tags available" without one, and no notice otherwise |
| TagSelector.Selector.constructor | components/tag-selector.tsx:26-29 | no tags, not loading, no create dialog |
| TagSelector.Selector.FetchTags | components/tag-selector.tsx:37-51 | a successful query replaces the list (`null` as empty), an error keeps it, and loading ends either way |
| TagSelector.Selector.HandleTagCreated | components/tag-selector.tsx:59-62 | the list is fetched again and the create dialog closes |
| TagLists.AddUnique | components/note-form.tsx:89-93 | a tag is appended only when no selected tag has its id, so afterwards its id is selected and distinct ids stay distinct |
| TagLists.RemoveId | components/note-form.tsx:95-97 | exactly the tags with that id are removed and the rest kept |
| TagLists.AddThenRemove | components/note-form.tsx:89-97 | adding an unselected tag and removing it again restores the selection |
| TagLists.ReplaceId | components/tag-manager.tsx:96 | every tag with that id is replaced by the updated one, position by position, and the others are kept |
| TagLists.ReplaceKeepsIds | components/tag-manager.tsx:96 | replacing under the same id keeps ids distinct, and an absent id changes nothing |
| TagLists.Unselected | components/note-form.tsx:172 | the offered tags are exactly the available tags whose id is not selected |
| TagLists.OfferedDisjoint | components/note-form.tsx:172 | an available tag is offered exactly when its id is not selected, so a selected tag is never offered |
| NoteForm.Form.constructor | components/note-form.tsx:33-40 | the fields start from the note, or empty, with the note's tags selected and no error |
| NoteForm.Form.Request | components/note-form.tsx:65-75 | the submit sends the title, content and selected ids in order, as PUT to `/api/notes/{id}` when editing and as POST to `/api/notes` otherwise |
| NoteForm.Form.HandleSubmit | components/note-form.tsx:59-87 | success navigates to `/notes` with no error; a non-ok response sets "Failed to save note"; a thrown error sets its message, or "An error occurred" for a non-`Error`; loading ends on every path |
| NoteForm.Form.AddTag | components/note-form.tsx:89-93 | the selection becomes the duplicate-free addition of the tag |
| NoteForm.Form.RemoveTag | components/note-form.tsx:95-97 | the selection loses exactly the tags with that id |
| NoteForm.Form.Offered | components/note-form.tsx:170-172 | the tags offered for adding are the available ones not yet selected |
| NoteForm.Form.CreateNewTag | components/note-form.tsx:99-118 | a blank name sends nothing; otherwise the trimmed name is sent, and a created tag is appended to the available list, selected and the input cleared; any other outcome changes nothing |
| NoteForm.CreatedTagSelectedNotOffered | components/note-form.tsx:109-113 | a tag created from the form is selected and no longer offered |
| TagManager.Manager.constructor | components/tag-manager.tsx:34-42 | loading, nothing edited, closed dialogs, and the first preset colour `#3b82f6` |
| TagManager.Manager.FetchTags | components/tag-manager.tsx:48-60 | an ok response replaces the list, anything else keeps it, and loading ends either way |
| TagManager.Manager.CreateTag | components/tag-manager.tsx:62-82 | a blank name sends nothing; otherwise the trimmed name and colour are posted, and an ok response appends the tag, resets the form to the first preset and closes the dialog, while any other outcome changes nothing |
| TagManager.Manager.UpdateTag | components/tag-manager.tsx:84-103 | nothing is sent without a tag being edited or with a blank name; otherwise a PUT to `/api/tags/{id}` with the trimmed name, and an ok response replaces that id in the list and closes the dialog |
| TagManager.Manager.DeleteTag | components/tag-manager.tsx:105-119 | nothing is sent without confirmation; an ok DELETE drops exactly the tags with that id |
| TagManager.Manager.OpenEditDialog | components/tag-manager.tsx:121-126 | the edit fields start from the tag and the dialog opens |
| TagManager.ResaveKeepsList | components/tag-manager.tsx:96 | saving an edited tag unchanged leaves a list with distinct ids as it was |
| NoteDialog.UpdateOwned | components/note-dialog.tsx:66-76 | the update under row-level security changes only the title and content of the caller's row with that id; every other row, and the set of keys, stay as they were |
| NoteDialog.DropLinks | components/note-dialog.tsx:95 | the delete under row-level security removes exactly the caller's associations of that note and keeps every other row |
| NoteDialog.Save | components/note-dialog.tsx:54-118 | a blank title, no signed-in user, a failed note statement or a taken key change nothing and do not close; otherwise the note is updated (editing) or inserted with the trimmed title and content and the database's key and time, the old associations are deleted unless that delete failed, one row per selected tag is appended unless the insert failed, the tags table is untouched, and the dialog closes unless the tag insert failed |
| NoteDialog.SaveReplacesAssociations | components/note-dialog.tsx:93-108 | after a save that went through, the caller's associations of the saved note are exactly one per selected tag, in selection order: the old set is replaced, not merged |
| NoteDialog.ReplacedLinks | components/note-dialog.tsx:95-106 | deleting a note's associations and appending rows that all belong to it leaves exactly those rows as its associations |
| NoteDialog.FailedTagInsertDropsTags | components/note-dialog.tsx:95-107 | when the association insert fails after the delete went through, the edited note is left with no tags at all and the dialog stays open |
| NoteDialog.SaveKeepsOtherLinks | components/note-dialog.tsx:93-108 | a save leaves the associations of every other note, and of every other user, as they were |
| NoteDialog.OtherLinks | components/note-dialog.tsx:95-106 | deleting one note's associations and appending rows of that note leaves any other (user, note) pair's associations unchanged |
| NoteDialog.SaveKeepsOtherNotes | components/note-dialog.tsx:66-90 | a save leaves every other user's notes as they were |
| NoteDialog.Dialog.constructor | components/note-dialog.tsx:36-40 | the dialog starts with empty fields, nothing selected, the picker hidden and not saving |
| NoteDialog.Dialog.Open | components/note-dialog.tsx:42-52 | opening fills title, content and selected tags from the note, or empties them when there is none |
| NoteDialog.Dialog.HandleSave | components/note-dialog.tsx:54-118 | the tables and the close decision are those of `Save` for the dialog's fields; saving is false afterwards on every path that started it |
| NoteDialog.Dialog.HandleTagSelect | components/note-dialog.tsx:124-129 | a picked tag is appended unless its id is already selected, and the picker is hidden |
| NoteDialog.Dialog.RemoveTag | components/note-dialog.tsx:120-122 | every selected tag with that id is dropped, the rest keep their order |
| CreateTagDialog.SaveError | components/create-tag-dialog.tsx:52-75 | the dialog shows no error exactly when a user is signed in and the insert succeeded; a unique-constraint violation (code 23505) shows "A tag with this name already exists", and every other failure, including no user, shows "Failed to create tag" |
| CreateTagDialog.Dialog.constructor | components/create-tag-dialog.tsx:32-35 | the dialog starts with an empty name, the first preset colour, not saving and no error |
| CreateTagDialog.Dialog.Open | components/create-tag-dialog.tsx:37-43 | opening sets the name to the initial name, the colour to the first preset (blue) and clears the error |
| CreateTagDialog.Dialog.HandleSave | components/create-tag-dialog.tsx:45-79 | a blank name does nothing; otherwise the trimmed name, the chosen colour and the user's id are inserted when a user is signed in, the error is the one `SaveError` gives, the tag counts as created exactly when no error is shown, and saving ends |
| PasswordChangeForm.Validate | components/password-change-form.tsx:26-34 | the new password is sent exactly when it equals the confirmation and has at least 8 characters; a mismatch is reported before the length |
| PasswordChangeForm.Form.constructor | components/password-change-form.tsx:14-19 | all three fields start empty, not loading, no message |
| PasswordChangeForm.Form.HandleSubmit | components/password-change-form.tsx:22-55 | a rejected check shows its translated message and sends nothing; otherwise only the new password is sent (the current one is never checked), success clears the three fields and shows the success message, a failure shows the error's message or the fallback text, and loading ends |
| QueryParams.GetFirst | components/tag-filter.tsx:20 | `get` finds nothing exactly when no pair has the name; otherwise it returns the value of a pair with that name |
| QueryParams.Deleted | components/tag-filter.tsx:42 | `delete` keeps exactly the pairs with another name |
| QueryParams.SetFirst | components/tag-filter.tsx:44 | `set` keeps every pair with another name, adds none, and leaves the pair (name, value) present |
| QueryParams.GetAfterSet | components/tag-filter.tsx:44 | after `set`, `get` of that name gives the new value and `get` of any other name is unchanged |
| QueryParams.GetAfterDelete | components/tag-filter.tsx:42 | after `delete`, `get` of that name finds nothing and `get` of any other name is unchanged |
| QueryParams.DeleteAfterSet | components/tag-filter.tsx:42-44 | deleting a name after setting it gives the same pairs as deleting it straight away |
| QueryParams.DeletedTwice | components/tag-filter.tsx:42 | `delete` is idempotent |
| QueryParams.SearchParams.constructor | components/tag-filter.tsx:40 | the copy holds the current pairs |
| QueryParams.SearchParams.Get | components/tag-filter.tsx:20 | reads the first pair with the name |
| QueryParams.SearchParams.Set | components/tag-filter.tsx:44 | the pairs become those of `SetFirst`; the name now reads the new value and every other name reads as before |
| QueryParams.SearchParams.Delete | components/tag-filter.tsx:42 | the pairs become those of `Deleted`; the name reads as absent and every other name reads as before |
| TagFilter.Filter.constructor | components/tag-filter.tsx:17 | the chip list starts empty |
| TagFilter.Filter.FetchTags | components/tag-filter.tsx:26-37 | the rows returned (or none for `null`) replace the list; a failed query keeps it |
| TagFilter.HandleTagClick | components/tag-filter.tsx:39-47 | navigates to the dashboard; clicking the selected tag removes the `tag` parameter, any other tag selects it, and every other parameter reads as before |
| TagFilter.ClearFilter | components/tag-filter.tsx:49-53 | navigates to the dashboard without a `tag` parameter, every other parameter reading as before |
| TagFilter.ClickTwiceClears | components/tag-filter.tsx:39-47 | clicking a tag selects it, and clicking it again leaves the same parameters as clearing the filter |
| SearchBar.SearchTarget | components/search-bar.tsx:16-23 | a blank query leads to the bare dashboard, any other to the dashboard with `search` set to the trimmed query |
| SearchBar.InitialQuery | components/search-bar.tsx:14 | the box starts from the `search` parameter, or empty without one |
| SearchBar.SearchRoundTrip | components/search-bar.tsx:14-23 | submitting a query and landing on the dashboard shows the trimmed query again; a blank one comes back empty |
| SearchBar.Bar.constructor | components/search-bar.tsx:14 | the box starts from the `search` parameter and nothing has been navigated to |
| SearchBar.Bar.HandleSearch | components/search-bar.tsx:16-23 | navigates to the target of the current text and keeps the text |
| SearchBar.Bar.ClearSearch | components/search-bar.tsx:25-41 | empties the box, navigates to the bare dashboard, and hides the clear button |
| NotesGrid.ModeOf | components/notes-grid.tsx:28-65 | a non-empty `search` parameter selects the search function with that text; otherwise the list is fetched, filtered by the `tag` parameter exactly when it is non-empty |
| NotesGrid.Present | components/notes-grid.tsx:74 | the joined tags that are not null, in order: no more than were joined and exactly the present ones |
| NotesGrid.PresentAll | components/notes-grid.tsx:74 | when every joined tag is present, nothing is dropped and the order is kept |
| NotesGrid.WithTags | components/notes-grid.tsx:71-75 | each row keeps its fields and gains the list of its present tags, row for row |
| NotesGrid.EmptyHeading | components/notes-grid.tsx:104 | search mode says "No notes found", a tag filter "No notes with this tag", and otherwise "No notes yet" |
| NotesGrid.Grid.constructor | components/notes-grid.tsx:25-26 | no notes, loading |
| NotesGrid.Grid.FetchNotes | components/notes-grid.tsx:35-84 | loading ends on every path; an error, or no user in search mode, keeps the notes shown; search rows are shown as they come, and list rows gain their present tags |
| NotesGrid.Grid.Heading | components/notes-grid.tsx:90-115 | the empty-state heading is shown exactly when loading is over and there are no notes, and it is the one `EmptyHeading` picks |
| NoteCard.Preview | components/note-card.tsx:31 | content of at most 150 characters is shown whole; longer content is cut to 150 characters followed by "...", so a preview is never longer than 153 |
| NoteCard.PreviewPrefix | components/note-card.tsx:31 | the preview starts with the first 150 characters of the content, or all of it when shorter |
| NoteCard.CardTags | components/note-card.tsx:30 | the joined tags of the note, or none when the row has no `note_tags` |
| NoteCard.EditHref | components/note-card.tsx:40 | the edit link is `/notes/`, the id, then `/edit` |
| NoteCard.EditHrefInjective | components/note-card.tsx:40 | different notes get different edit links |
| InvitationScript.SplitOf | public/js/script.js:57-60 | the countdown's hours, minutes and seconds are always below 24, 60 and 60 |
| InvitationScript.SplitReconstructs | public/js/script.js:57-60 | the four fields add back up to the distance, losing only the milliseconds below one second |
| InvitationScript.ModNested | public/js/script.js:58-60 | taking the remainder by a day (or hour) before the remainder by an hour (or minute) gives the same remainder |
| InvitationScript.ModUnique | public/js/script.js:57-60 | the remainder is the only value below the divisor that leaves a multiple of it |
| InvitationScript.Padded | public/js/script.js:72 | the padded text is at least two characters, all digits |
| InvitationScript.PaddedValue | public/js/script.js:72 | the padded text still reads as the number |
| InvitationScript.LeadingZeros | public/js/script.js:72 | one leading zero does not change the value of a digit |
| InvitationScript.Shown | public/js/script.js:49-66 | once the target has passed, the four fields read "00"; before, they are the padded split of the distance |
| InvitationScript.Digits | public/js/script.js:63-72 | one padded text per field, days, hours, minutes, seconds |
| InvitationScript.TwoDigitsBelowHundredDays | public/js/script.js:57-72 | below 100 days every field is exactly two digits |
| InvitationScript.PaddedTwoDigits | public/js/script.js:72 | a value below 100 pads to exactly two characters |
| InvitationScript.Countdown.constructor | public/js/script.js:42-43 | the countdown starts from the elements' texts |
| InvitationScript.Countdown.UpdateElement | public/js/script.js:69-83 | a missing element is skipped; a present one gets the padded text, and it is rewritten (with the animation) exactly when its text differs |
| InvitationScript.Countdown.Update | public/js/script.js:45-67 | the four elements end up showing `Shown(distance)` and nothing else changes |
| InvitationScript.Music.constructor | public/js/script.js:92-95 | the music starts not playing |
| InvitationScript.Music.Click | public/js/script.js:98-116 | the flag flips on every click; pausing shows the play icon, and playing shows the pause icon only when `play()` succeeds, so a refused play leaves the flag saying "playing" under a play icon |
| InvitationScript.Music.Ended | public/js/script.js:119-123 | when the audio ends the flag is off and the play icon is shown |
| InvitationScript.AddOrnaments | public/js/script.js:251-281 | the ornaments added are those of `OrnamentsUpTo` for the sections in order, two for each even section |
| InvitationScript.OrnamentPlacement | public/js/script.js:252-278 | only even sections get ornaments; the right one uses picture `index % 3` and the left one picture `(index + 1) % 3` |
| InvitationScript.OrnamentCoverage | public/js/script.js:251-281 | every even section gets one ornament on each side |
| InvitationServer.Root | server.js:21-24 | `GET /` redirects to `/undangan` |
| InvitationServer.GuestName | server.js:28-29 | without a non-empty `to` the guest is "Tamu Undangan"; otherwise the name is `to` with every `+` turned into a space, character for character |
| InvitationServer.NewestFirstIsTotalPreorder | server.js:32 | `created_at DESC` is a total preorder, so the sort is well defined |
| InvitationServer.Undangan | server.js:26-43 | a failed query answers 500 with its message; otherwise the page shows the guest name and exactly the stored messages, newest first |
| InvitationServer.RedirectAsWritten | server.js:57-58 | with `to` the redirect is `/undangan?to=…&status=sukses`; without it, `/undangan&status=sukses` |
| InvitationServer.RedirectTarget | server.js:56-58 | with `to` the redirect is as written; without it, `/undangan?status=sukses` |
| InvitationServer.PathOf | server.js:58 | the path of a URL is its longest prefix without a `?` |
| InvitationServer.PathOfPrefix | server.js:58 | a URL of a `?`-free path followed by `?` has that path |
| InvitationServer.RedirectWithoutGuestMissesPage | server.js:57-58 | without `to`, the redirect as written goes to the path `/undangan&status=sukses`, not to the invitation page |
| InvitationServer.RedirectReachesPage | server.js:56-58 | the corrected redirect always leads back to `/undangan` |
| InvitationServer.RedirectReportsSuccess | server.js:58 | the redirect always ends with `status=sukses` |
| InvitationServer.PlaceholdersAsWrittenRejected | server.js:52-54 | `mysql2` fills only `?` placeholders: the insert's `$1, $2, $3` are never filled, where `?, ?, ?` would be |
| InvitationServer.Submit | server.js:45-64 | a missing or empty name, message or confirmation answers 400 and stores nothing; an insert that fails, or one the database rejects, answers 500 and stores nothing; otherwise the message is appended and the answer is the redirect |
| InvitationServer.Ucapan | server.js:45-64 | the handler as written: an incomplete form answers 400, and a complete one always 500 with nothing stored |
| InvitationServer.UcapanCorrected | server.js:45-64 | with `?` placeholders and the corrected redirect: an incomplete form answers 400, a failed insert 500, and otherwise the message is appended and the answer redirects to the invitation page |
| InvitationServer.PostedMessageListed | server.js:26-58 | with the corrected handler, a stored message is listed on the page the redirect leads to |
| KeyedStore.ListByKey | lib/offline-storage.ts:66 | `getAll()` on an object store lists every stored entry exactly once, in increasing key order |
| KeyedStore.ListingUnique | lib/offline-storage.ts:66 | that listing is fixed by the keys alone: two listings of the same store are equal |
| KeyedStore.ListingEnumerates | app/api/notes/route.ts:4-34 | a key-order listing, and any reordering of it, holds every row of the table exactly once |
| Lex.LeTotal | app/notes/page.tsx:132-134 | JavaScript's `<` on strings orders any two strings one way or the other |
| Lex.LeTrans | app/notes/page.tsx:132-134 | that order is transitive |
| Lex.LeAntisym | app/notes/page.tsx:132-134 | two strings ordered both ways are equal |
| Text.ToLower | app/notes/page.tsx:85-89 | lower-casing keeps the length, maps each character on its own, leaves no upper-case ASCII letter and is idempotent character by character |
| Text.IncludesIff | app/notes/page.tsx:87-89 | `includes` holds exactly when the text occurs at some position |
| Text.TrimShape | components/create-tag-dialog.tsx:57 | `trim` keeps only characters of the input and leaves no white space at either end |
| Text.BlankIffAllSpace | components/create-tag-dialog.tsx:46 | `!name.trim()` holds exactly when the name is all white space |
| Text.JoinSplit | lib/use-translations.tsx:56 | joining the parts of `key.split(".")` with dots gives the key back |
| Text.SplitJoin | lib/use-translations.tsx:56 | splitting dot-free parts joined with dots gives the parts back |
| Text.IntToStringRoundTrip | lib/rate-limit.ts:64-66 | the decimal text of an integer parses back to that integer |
| Text.PadStart | public/js/script.js:72 | `padStart` fills on the left up to the width and keeps the text as the suffix |
| Text.ReplaceChar | server.js:29 | replacing one character with another keeps the length and changes exactly the occurrences, so none is left when the two differ |
| Lists.SortBySorted | server.js:32 | the sort keeps the same elements and leaves them ordered by a total preorder |
| Lists.Filter | app/notes/page.tsx:85-111 | a filter keeps exactly the elements that satisfy the predicate, each no more often than in the input |

## Left out

- Promise and callback plumbing, `event.waitUntil`, and the interleaving of the service worker and the page on one IndexedDB: each store operation and each request is one atomic step, and its outcome (including a promise that never settles) is a parameter.
- The IndexedDB and Cache Storage engines: stores are maps keyed by `id`. Also left out:
  - the `timestamp` and `updated_at` indexes that `onupgradeneeded` creates, which no modelled operation reads;
  - the service worker's `install` event, which pre-caches `STATIC_ASSETS`;
  - `skipWaiting` and `clients.claim`.
- Supabase internals. Row-level security is stated as "a user reads and writes only rows carrying their `user_id`". Not modelled:
  - the `updated_at` triggers;
  - foreign-key cascades;
  - the PostgREST join and `!inner` semantics;
  - the `search_notes` RPC, whose rows are a parameter.
- TagsRoute.Get: the database collation of `order("name")` is modelled as JavaScript's code-point order.
- NotesGrid.Grid.FetchNotes: the grid takes the rows the query returns as given. Their `updated_at` order and the tag filter are the database's work and are not re-stated.
- Vercel KV `expire`: key expiry is driven by the clock and is not modelled. Every other sorted-set command the limiter issues is modelled.
- RateLimitRoute.Post: an exception that escapes to the outer `catch` from outside the limiter (reading the headers, building the response) is a parameter, and it is taken to stop the request before the limiter runs. A body that is not JSON is caught inside and answers "Missing 'action'", as modelled. Inside the limiter, a KV failure is the limiter's own fail-open path.
- RateLimitRoute.PropertyKey: JSON numbers are integers, so a fractional or exponent number action is not modelled. A JSON object converts to `[object Object]`; an object carrying its own `toString` or `valueOf` member, whose conversion throws, is not modelled.
- Messages.Child: besides own entries and string characters, `?.[k]` also reaches members every object or string inherits (`constructor`, `toString`, `length`, and so on), and the walk can go on through them, so `t("constructor.name")` gives `"Object"`. These inherited members are not modelled, and neither is indexing into an array or a number, which `Other` stands for.
- Messages.MissingSegmentFindsNothing: holds for a first segment that is neither an own entry nor an inherited member name; see `Messages.Child`.
- UseTranslations.TranslationProvider.T: the key walk has the gap stated for `Messages.Child`.
- I18nProvider.Provider.T: the key walk has the gap stated for `Messages.Child`, and the rendering has the gap stated for `I18nProvider.Render`.
- I18nProvider.Render: `params[name]` also reaches members the params object inherits, so `{{constructor}}` with no such param is replaced by the text of the `Object` function. Params are modelled as own entries only.
- I18nProvider.PlaceholderReplaced: "stays when the param is missing" holds for names that are not inherited object members; see `I18nProvider.Render`.
- SyncRoute.Post: a body field that is absent reaches the statement as `undefined`; the model takes `title`, `content` and `id` to be strings.
- Percent-encoding: `encodeURIComponent` is a parameter of `InvitationServer`. A navigation target in `QueryParams`, `TagFilter` and `SearchBar` carries its name/value pairs rather than the serialised text, so `URLSearchParams.toString()` is not modelled.
- A query string with a repeated parameter, and `req.query.to` given as an array, are not modelled.
- Strings:
  - Strings are sequences of code points, not UTF-16 units, so `length`, `substring(0, 150)` and `<` differ from JavaScript on text outside the Basic Multilingual Plane.
  - Lower-casing covers ASCII letters only.
- Dates are integer timestamps. `parseISO`, `new Date`, `toISOString` and `toLocaleDateString` are not modelled.
- Timers, animations and randomness in `public/js/script.js` are not modelled. This covers `setInterval`, `setTimeout`, the scale and colour animation, the random ornament offsets, the observers and parallax.
- InvitationScript.Countdown.UpdateElement: the new text is written at once, where the page writes it 150 ms later.
- Missing DOM elements are not modelled beyond the countdown elements, which `Update` requires. The music button's handlers exist only when its three elements do.
- NoteCard: the delete button passes `note.id` unchanged to `onDelete`; it is a single call and has no member of its own.
- NotesGrid: it passes an `onUpdate` prop that `NoteCard` does not declare, and the grid's notes carry `tags` where the card reads `note_tags`; the model keeps each component's own view of its props.
- NoteForm and SearchFilters fetch their tag lists with the same one-line `fetch` as `TagManager.Manager.FetchTags`. Only that one is modelled.
- PasswordChangeForm: the submit-disabled test and TagFilter's "render nothing without tags" test are predicates without a contract of their own.
- UseTranslations and I18nProvider: `localStorage` and `document` are fields of the provider classes. Other tabs and server-side rendering, where `window` is undefined, are not modelled.
- Configuration loading (`config/database.js`) and the pure views that only render or forward props are not modelled.
- MySQL itself: the only behaviour modelled is that an insert whose `VALUES` list still holds a `$n` placeholder fails, and one with three `?` marks stores the three values. Any other failure is the `writeFails` parameter.

## Findings

| source | as written | input that shows it | evidently intended | confidence | as-written member | corrected member |
|---|---|---|---|---|---|---|
| app/api/auth/rate-limit/route.ts:16-24 | `limits[action]` looks the action up on a plain object literal, so inherited members count as configured actions | body `{"action": "toString"}`: `config` is a function, passes `!config`, and the limiter runs with `undefined` limit and window, that is the defaults 5 and 60000 | only `login` and `register` are accepted; any other action answers 400 "Invalid action" | not executed | RateLimitRoute.InheritedActionReachesLimiter | RateLimitRoute.Plan |
| server.js:52-54 | the insert uses PostgreSQL placeholders `$1, $2, $3`, but the pool is `mysql2`'s, which fills only `?` | any complete guestbook form: MySQL receives `VALUES ($1, $2, $3)`, finds no column `$1`, the insert throws and the handler answers 500 "Terjadi kesalahan pada server saat menyimpan data." | `VALUES (?, ?, ?)`, so the message is stored and the guest is redirected | not executed; assumes MySQL rejects `$1` as an unknown column | InvitationServer.Ucapan | InvitationServer.PostedMessageListed |
| server.js:57-58 | the redirect is `/undangan` + (`?to=…` or nothing) + `&status=sukses` | a guestbook post without `to` redirects to `/undangan&status=sukses`, a path no route serves | `/undangan?status=sukses`, so every redirect returns to the invitation page | not executed | InvitationServer.RedirectWithoutGuestMissesPage | InvitationServer.RedirectReachesPage |
