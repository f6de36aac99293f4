/** The client-side IndexedDB wrapper (`lib/offline-storage.ts`): a lazily opened
    database "NotesDB" with two object stores keyed by `id`, `pendingNotes` (queued
    note mutations) and `cachedNotes` (the last fetched note list). */
module OfflineStore {
  import Lex
  import opened KeyedStore

  datatype Action = Create | Update | Delete

  datatype PendingNote = PendingNote(
    id: string, title: string, content: string, tags: seq<string>, action: Action, timestamp: int)

  /** A note as written to `cachedNotes`; the store only looks at its `id`. */
  datatype CachedNote = CachedNote(id: string, title: string, content: string, updatedAt: int)

  /** What the environment does to one store call: whether `indexedDB.open` succeeds
      (consulted only while no connection is held) and whether the request fails. */
  datatype Io = Io(opens: bool, fails: bool)

  function PendingKey(n: PendingNote): string { n.id }

  function CachedKey(n: CachedNote): string { n.id }

  /** The `cachedNotes` store after clearing it and putting `notes` one by one. */
  function CacheOf(notes: seq<CachedNote>): (m: map<string, CachedNote>)
    ensures KeyedBy(m, CachedKey)
    ensures m.Keys == set i | 0 <= i < |notes| :: notes[i].id
  {
    if notes == [] then map[]
    else
      var last := notes[|notes| - 1];
      var m := CacheOf(notes[..|notes| - 1]);
      assert forall i :: 0 <= i < |notes| - 1 ==> notes[..|notes| - 1][i] == notes[i];
      m[last.id := last]
  }

  /** A later note with the same id overwrites an earlier one. */
  lemma {:induction false} CacheOfLastWins(notes: seq<CachedNote>, i: nat)
    requires i < |notes|
    requires forall j :: i < j < |notes| ==> notes[j].id != notes[i].id
    ensures CacheOf(notes)[notes[i].id] == notes[i]
  {
    if i < |notes| - 1 {
      var init := notes[..|notes| - 1];
      assert init[i] == notes[i];
      forall j | i < j < |init| ensures init[j].id != init[i].id {
        assert init[j] == notes[j];
      }
      CacheOfLastWins(init, i);
    }
  }

  /** With distinct ids, reading the cache back yields exactly the notes written. */
  lemma CacheRoundTrip(notes: seq<CachedNote>, list: seq<CachedNote>)
    requires forall i, j :: 0 <= i < j < |notes| ==> notes[i].id != notes[j].id
    requires ListsInKeyOrder(list, CacheOf(notes), CachedKey)
    ensures forall n :: n in list <==> n in notes
  {
    var m := CacheOf(notes);
    forall i | 0 <= i < |notes| ensures notes[i] in list {
      CacheOfLastWins(notes, i);
      assert notes[i].id in m;
    }
    forall n | n in list ensures n in notes {
      var i :| 0 <= i < |list| && list[i] == n;
      var k := CachedKey(n);
      assert k in m;
      var j :| 0 <= j < |notes| && notes[j].id == k;
      CacheOfLastWins(notes, j);
    }
  }

  class OfflineStorage {
    /** Whether a connection is held (`this.db !== null`). */
    var dbOpen: bool
    var pending: map<string, PendingNote>
    var cached: map<string, CachedNote>

    ghost predicate Valid()
      reads this
    {
      KeyedBy(pending, PendingKey) && KeyedBy(cached, CachedKey)
    }

    /** A wrapper over a database whose stores already hold `pending0` and `cached0`;
        no connection is opened yet. */
    constructor (pending0: map<string, PendingNote>, cached0: map<string, CachedNote>)
      requires KeyedBy(pending0, PendingKey) && KeyedBy(cached0, CachedKey)
      ensures Valid()
      ensures !dbOpen && pending == pending0 && cached == cached0
    {
      dbOpen := false;
      pending := pending0;
      cached := cached0;
    }

    /** `init`: opens the database; the upgrade handler only creates stores and indexes. */
    method Init(opens: bool) returns (ok: bool)
      modifies this`dbOpen
      ensures ok == opens
      ensures dbOpen == (old(dbOpen) || opens)
    {
      ok := opens;
      if opens {
        dbOpen := true;
      }
    }

    /** The `if (!this.db) await this.init()` prologue of every operation. */
    method EnsureOpen(opens: bool) returns (ok: bool)
      modifies this`dbOpen
      ensures ok == (old(dbOpen) || opens)
      ensures dbOpen == ok
    {
      if dbOpen {
        ok := true;
      } else {
        ok := Init(opens);
      }
    }

    method AddPendingNote(note: PendingNote, io: Io) returns (ok: bool)
      requires Valid()
      modifies this
      ensures Valid()
      ensures dbOpen == (old(dbOpen) || io.opens)
      ensures ok == (dbOpen && !io.fails)
      ensures pending == if ok then old(pending)[note.id := note] else old(pending)
      ensures cached == old(cached)
    {
      ok := EnsureOpen(io.opens);
      ok := ok && !io.fails;
      if ok {
        pending := pending[note.id := note];
      }
    }

    method GetPendingNotes(io: Io) returns (ok: bool, notes: seq<PendingNote>)
      requires Valid()
      modifies this`dbOpen
      ensures dbOpen == (old(dbOpen) || io.opens)
      ensures ok == (dbOpen && !io.fails)
      ensures ok ==> ListsInKeyOrder(notes, pending, PendingKey)
      ensures !ok ==> notes == []
    {
      ok := EnsureOpen(io.opens);
      ok := ok && !io.fails;
      notes := [];
      if ok {
        notes := ListByKey(pending, PendingKey);
      }
    }

    method RemovePendingNote(id: string, io: Io) returns (ok: bool)
      requires Valid()
      modifies this
      ensures Valid()
      ensures dbOpen == (old(dbOpen) || io.opens)
      ensures ok == (dbOpen && !io.fails)
      ensures pending == if ok then old(pending) - {id} else old(pending)
      ensures cached == old(cached)
    {
      ok := EnsureOpen(io.opens);
      ok := ok && !io.fails;
      if ok {
        pending := pending - {id};
      }
    }

    /** Clears `cachedNotes` and puts every note, in one transaction: a failed
        transaction leaves the old cache in place. */
    method CacheNotes(notes: seq<CachedNote>, io: Io) returns (ok: bool)
      requires Valid()
      modifies this
      ensures Valid()
      ensures dbOpen == (old(dbOpen) || io.opens)
      ensures ok == (dbOpen && !io.fails)
      ensures cached == if ok then CacheOf(notes) else old(cached)
      ensures pending == old(pending)
    {
      ok := EnsureOpen(io.opens);
      ok := ok && !io.fails;
      if ok {
        cached := map[];
        var i := 0;
        while i < |notes|
          invariant 0 <= i <= |notes|
          invariant cached == CacheOf(notes[..i])
          invariant dbOpen && pending == old(pending)
        {
          assert notes[..i + 1][..i] == notes[..i];
          cached := cached[notes[i].id := notes[i]];
          i := i + 1;
        }
        assert notes[..|notes|] == notes;
      }
    }

    method GetCachedNotes(io: Io) returns (ok: bool, notes: seq<CachedNote>)
      requires Valid()
      modifies this`dbOpen
      ensures dbOpen == (old(dbOpen) || io.opens)
      ensures ok == (dbOpen && !io.fails)
      ensures ok ==> ListsInKeyOrder(notes, cached, CachedKey)
      ensures !ok ==> notes == []
    {
      ok := EnsureOpen(io.opens);
      ok := ok && !io.fails;
      notes := [];
      if ok {
        notes := ListByKey(cached, CachedKey);
      }
    }
  }

  /** `addPendingNote` then `getPendingNotes`: the note is listed, exactly once. */
  lemma AddedNoteListedOnce(store: map<string, PendingNote>, note: PendingNote, list: seq<PendingNote>)
    requires ListsInKeyOrder(list, store[note.id := note], PendingKey)
    ensures note in list
    ensures forall i, j :: 0 <= i < |list| && 0 <= j < |list| && list[i] == note && list[j] == note ==> i == j
  {
    var s := store[note.id := note];
    assert s[note.id] == note;
  }

  /** Putting the same id twice keeps one entry: the later write. */
  lemma UpsertOverwrites(store: map<string, PendingNote>, a: PendingNote, b: PendingNote)
    requires a.id == b.id
    ensures store[a.id := a][b.id := b] == store[b.id := b]
    ensures |store[a.id := a][b.id := b]| == |store[b.id := b]|
  {
  }

  /** Removing an id twice leaves the same store as removing it once, and only that key goes. */
  lemma RemoveIdempotent(store: map<string, PendingNote>, id: string)
    ensures (store - {id}) - {id} == store - {id}
    ensures forall k | k in store && k != id :: k in store - {id} && (store - {id})[k] == store[k]
  {
  }
}
