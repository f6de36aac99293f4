/** `URLSearchParams` as the notes pages use it: an ordered list of name/value
    pairs with `get`, `set` and `delete`, and the `router.push` targets built from
    it. Percent-encoding is not modelled: a target carries the pairs themselves. */
module QueryParams {
  import opened Wrappers

  datatype Pair = Pair(name: string, value: string)

  /** A navigation target: a path and, when the URL has a `?`, its pairs. */
  datatype Target = Target(path: string, query: Option<seq<Pair>>)

  /** `get(name)`: the value of the first pair with that name. */
  function GetFirst(ps: seq<Pair>, name: string): (v: Option<string>)
    ensures v.None? <==> forall i :: 0 <= i < |ps| ==> ps[i].name != name
    ensures v.Some? ==> exists i :: 0 <= i < |ps| && ps[i] == Pair(name, v.value)
  {
    if ps == [] then None
    else if ps[0].name == name then Some(ps[0].value)
    else
      var r := GetFirst(ps[1..], name);
      assert forall i :: 0 < i < |ps| ==> ps[i] == ps[1..][i - 1];
      r
  }

  /** `delete(name)`: every pair with that name goes, the rest keep their order. */
  function Deleted(ps: seq<Pair>, name: string): (r: seq<Pair>)
    ensures forall p :: p in r <==> p in ps && p.name != name
  {
    if ps == [] then []
    else if ps[0].name == name then Deleted(ps[1..], name)
    else [ps[0]] + Deleted(ps[1..], name)
  }

  /** `set(name, value)`: the first pair with that name takes the value and later
      ones go; without one, the pair is appended. */
  function SetFirst(ps: seq<Pair>, name: string, value: string): (r: seq<Pair>)
    ensures forall p | p in r && p.name != name :: p in ps
    ensures forall p | p in ps && p.name != name :: p in r
    ensures Pair(name, value) in r
  {
    if ps == [] then [Pair(name, value)]
    else if ps[0].name == name then [Pair(name, value)] + Deleted(ps[1..], name)
    else [ps[0]] + SetFirst(ps[1..], name, value)
  }

  lemma {:induction false} GetAfterSet(ps: seq<Pair>, name: string, value: string, other: string)
    ensures GetFirst(SetFirst(ps, name, value), name) == Some(value)
    ensures other != name ==> GetFirst(SetFirst(ps, name, value), other) == GetFirst(ps, other)
  {
    if ps != [] && ps[0].name != name {
      GetAfterSet(ps[1..], name, value, other);
    } else if ps != [] {
      GetAfterDelete(ps[1..], name, other);
    }
  }

  lemma {:induction false} GetAfterDelete(ps: seq<Pair>, name: string, other: string)
    ensures GetFirst(Deleted(ps, name), name).None?
    ensures other != name ==> GetFirst(Deleted(ps, name), other) == GetFirst(ps, other)
  {
    if ps != [] {
      GetAfterDelete(ps[1..], name, other);
    }
  }

  /** Deleting after setting is the same as deleting: `set` leaves no trace of the
      name behind. */
  lemma {:induction false} DeleteAfterSet(ps: seq<Pair>, name: string, value: string)
    ensures Deleted(SetFirst(ps, name, value), name) == Deleted(ps, name)
  {
    if ps != [] {
      if ps[0].name == name {
        DeletedTwice(ps[1..], name);
      } else {
        DeleteAfterSet(ps[1..], name, value);
      }
    }
  }

  lemma {:induction false} DeletedTwice(ps: seq<Pair>, name: string)
    ensures Deleted(Deleted(ps, name), name) == Deleted(ps, name)
  {
    if ps != [] {
      DeletedTwice(ps[1..], name);
    }
  }

  /** A `URLSearchParams` object, changed in place by `set` and `delete`. */
  class SearchParams {
    var pairs: seq<Pair>

    /** `new URLSearchParams(searchParams.toString())`: a copy of the current pairs. */
    constructor (pairs: seq<Pair>)
      ensures this.pairs == pairs
    {
      this.pairs := pairs;
    }

    function Get(name: string): (v: Option<string>)
      reads this
      ensures v == GetFirst(pairs, name)
    {
      GetFirst(pairs, name)
    }

    method Set(name: string, value: string)
      modifies this
      ensures pairs == SetFirst(old(pairs), name, value)
      ensures Get(name) == Some(value)
      ensures forall other | other != name :: Get(other) == old(Get(other))
    {
      pairs := SetFirst(pairs, name, value);
      forall other | other != name ensures Get(other) == GetFirst(old(pairs), other) {
        GetAfterSet(old(pairs), name, value, other);
      }
      GetAfterSet(old(pairs), name, value, name);
    }

    method Delete(name: string)
      modifies this
      ensures pairs == Deleted(old(pairs), name)
      ensures Get(name).None?
      ensures forall other | other != name :: Get(other) == old(Get(other))
    {
      pairs := Deleted(pairs, name);
      forall other | other != name ensures Get(other) == GetFirst(old(pairs), other) {
        GetAfterDelete(old(pairs), name, other);
      }
      GetAfterDelete(old(pairs), name, name);
    }
  }
}
