/** Object stores and tables keyed by a string primary key, and their listing in
    key order: what `getAll()` on an IndexedDB object store returns, and the row
    order of a keyed table before any `order by`. */
module KeyedStore {
  import Lex
  import Lists

  /** Every entry is stored under its own key (`keyPath: "id"`, a primary key column). */
  ghost predicate KeyedBy<T>(store: map<string, T>, key: T -> string) {
    forall k | k in store :: key(store[k]) == k
  }

  /** Deleting a key keeps every remaining entry under its own key. */
  lemma KeyedByRemove<T>(store: map<string, T>, key: T -> string, k: string)
    requires KeyedBy(store, key)
    ensures KeyedBy(store - {k}, key)
  {
  }

  predicate StrictlyIncreasing(keys: seq<string>) {
    forall i, j :: 0 <= i < j < |keys| ==> Lex.Lt(keys[i], keys[j])
  }

  /** `list` holds every entry of `store` once, in increasing key order. */
  ghost predicate ListsInKeyOrder<T>(list: seq<T>, store: map<string, T>, key: T -> string) {
    && (forall i, j :: 0 <= i < j < |list| ==> Lex.Lt(key(list[i]), key(list[j])))
    && (forall i :: 0 <= i < |list| ==> key(list[i]) in store && store[key(list[i])] == list[i])
    && (forall k | k in store :: store[k] in list)
  }

  /** The least key of a non-empty key set. */
  lemma {:induction false} MinKey(s: set<string>) returns (m: string)
    requires s != {}
    ensures m in s
    ensures forall k | k in s :: Lex.Le(m, k)
    decreases s
  {
    var x :| x in s;
    Lex.LeRefl(x);
    if s == {x} {
      m := x;
    } else {
      var m' := MinKey(s - {x});
      Lex.LeTotal(m', x);
      if Lex.Le(m', x) {
        m := m';
      } else {
        m := x;
        forall k | k in s - {x} ensures Lex.Le(x, k) {
          Lex.LeTrans(x, m', k);
        }
      }
    }
  }

  /** The keys of a store in increasing order, each once. */
  method SortedKeys(keys: set<string>) returns (r: seq<string>)
    ensures StrictlyIncreasing(r)
    ensures forall k :: k in r <==> k in keys
    ensures |r| == |keys|
  {
    r := [];
    var rest := keys;
    while rest != {}
      invariant rest <= keys
      invariant forall k :: k in r <==> k in keys && k !in rest
      invariant StrictlyIncreasing(r)
      invariant forall i, k :: 0 <= i < |r| && k in rest ==> Lex.Lt(r[i], k)
      invariant |r| + |rest| == |keys|
      decreases rest
    {
      ghost var least := MinKey(rest);
      var m :| m in rest && forall k | k in rest :: Lex.Le(m, k);
      r := r + [m];
      rest := rest - {m};
    }
  }

  /** Lists a store in key order. */
  method ListByKey<T>(store: map<string, T>, key: T -> string) returns (list: seq<T>)
    requires KeyedBy(store, key)
    ensures ListsInKeyOrder(list, store, key)
    ensures |list| == |store|
  {
    var keys := SortedKeys(store.Keys);
    list := seq(|keys|, i requires 0 <= i < |keys| => store[keys[i]]);
    forall k | k in store ensures store[k] in list {
      var i :| 0 <= i < |keys| && keys[i] == k;
      assert list[i] == store[k];
    }
  }

  /** A listing holds no entry twice. */
  lemma ListingDistinct<T>(list: seq<T>, store: map<string, T>, key: T -> string)
    requires ListsInKeyOrder(list, store, key)
    ensures forall i, j :: 0 <= i < j < |list| ==> list[i] != list[j]
  {
  }

  lemma ListingEmpty<T>(l: seq<T>, store: map<string, T>, key: T -> string)
    requires ListsInKeyOrder(l, store, key)
    ensures l == [] <==> store == map[]
  {
    if l != [] {
      assert key(l[0]) in store;
    }
  }

  /** The first entry of a listing has the least key of the store. */
  lemma ListingHeadLeast<T>(l: seq<T>, store: map<string, T>, key: T -> string)
    requires KeyedBy(store, key)
    requires ListsInKeyOrder(l, store, key)
    requires l != []
    ensures forall k | k in store :: Lex.Le(key(l[0]), k)
  {
    forall k | k in store ensures Lex.Le(key(l[0]), k) {
      var j :| 0 <= j < |l| && l[j] == store[k];
      if j == 0 {
        Lex.LeRefl(k);
      } else {
        assert Lex.Lt(key(l[0]), key(l[j]));
      }
    }
  }

  /** Dropping the first entry of a listing lists the rest of the store. */
  lemma ListingTail<T>(l: seq<T>, store: map<string, T>, key: T -> string)
    requires KeyedBy(store, key)
    requires ListsInKeyOrder(l, store, key)
    requires l != []
    ensures ListsInKeyOrder(l[1..], store - {key(l[0])}, key)
  {
    var rest := store - {key(l[0])};
    forall k | k in rest ensures store[k] in l[1..] {
      var j :| 0 <= j < |l| && l[j] == store[k];
      assert j != 0;
      assert l[1..][j - 1] == store[k];
    }
    forall i | 0 <= i < |l| - 1 ensures key(l[1..][i]) in rest {
      assert Lex.Lt(key(l[0]), key(l[i + 1]));
    }
  }

  /** The listing of a store is unique: `getAll()` order is fixed by the keys alone,
      not by insertion order or by the `timestamp` index. */
  lemma {:induction false} ListingUnique<T>(l1: seq<T>, l2: seq<T>, store: map<string, T>, key: T -> string)
    requires KeyedBy(store, key)
    requires ListsInKeyOrder(l1, store, key) && ListsInKeyOrder(l2, store, key)
    ensures l1 == l2
    decreases |l1|
  {
    ListingEmpty(l1, store, key);
    ListingEmpty(l2, store, key);
    if l1 != [] {
      ListingHeadLeast(l1, store, key);
      ListingHeadLeast(l2, store, key);
      Lex.LeAntisym(key(l1[0]), key(l2[0]));
      ListingTail(l1, store, key);
      ListingTail(l2, store, key);
      ListingUnique(l1[1..], l2[1..], store - {key(l1[0])}, key);
      assert l1 == [l1[0]] + l1[1..] && l2 == [l2[0]] + l2[1..];
    }
  }


  /** `rows` holds every value of `store` exactly once, in any order. */
  ghost predicate Enumerates<T(!new)>(rows: seq<T>, store: map<string, T>) {
    forall r :: multiset(rows)[r] == if r in store.Values then 1 else 0
  }

  /** A key-order listing enumerates the store, and so does any reordering of it. */
  lemma ListingEnumerates<T(!new)>(list: seq<T>, rows: seq<T>, store: map<string, T>, key: T -> string)
    requires ListsInKeyOrder(list, store, key)
    requires multiset(rows) == multiset(list)
    ensures Enumerates(rows, store)
  {
    ListingDistinct(list, store, key);
    forall r ensures multiset(rows)[r] == if r in store.Values then 1 else 0 {
      Lists.DistinctMultiplicity(list, r);
      if r in store.Values {
        var k :| k in store && store[k] == r;
      }
    }
  }
}
