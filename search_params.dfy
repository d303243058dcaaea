/**
 * `URLSearchParams`: an ordered list of name/value pairs. The router appends to and
 * sets into one; the mocked vendor reads one back with `get` and `getAll`.
 * The percent-encoding of the list as URL text is not part of this model.
 */
module SearchParams {
  import opened Maybe

  type Pair = (string, string)

  /** Some pair in `ps` is named `key`. */
  predicate HasKey(ps: seq<Pair>, key: string) {
    exists i :: 0 <= i < |ps| && ps[i].0 == key
  }

  /** `params.get(key)`: the value of the first pair named `key`, null when there is none. */
  function Get(ps: seq<Pair>, key: string): (r: Option<string>)
    ensures r.None? <==> !HasKey(ps, key)
    ensures r.Some? ==> exists i :: 0 <= i < |ps| && ps[i] == (key, r.value)
                                   && forall j :: 0 <= j < i ==> ps[j].0 != key
  {
    if ps == [] then None
    else if ps[0].0 == key then Some(ps[0].1)
    else
      var r := Get(ps[1..], key);
      assert forall i :: 1 <= i < |ps| ==> ps[i] == ps[1..][i - 1];
      r
  }

  /** `params.getAll(key)`: the values of every pair named `key`, in order. */
  function GetAll(ps: seq<Pair>, key: string): (r: seq<string>)
    ensures r == [] <==> !HasKey(ps, key)
  {
    if ps == [] then []
    else
      var rest := GetAll(ps[1..], key);
      assert forall i :: 1 <= i < |ps| ==> ps[i] == ps[1..][i - 1];
      (if ps[0].0 == key then [ps[0].1] else []) + rest
  }

  /** The first value `getAll` lists is the one `get` returns. */
  lemma {:induction false} GetAllFirstIsGet(ps: seq<Pair>, key: string)
    requires GetAll(ps, key) != []
    ensures Get(ps, key) == Some(GetAll(ps, key)[0])
  {
    if ps[0].0 != key {
      GetAllFirstIsGet(ps[1..], key);
    }
  }

  /** `getAll` distributes over concatenation of pair lists. */
  lemma {:induction false} GetAllAppend(a: seq<Pair>, b: seq<Pair>, key: string)
    ensures GetAll(a + b, key) == GetAll(a, key) + GetAll(b, key)
  {
    if a != [] {
      GetAllAppend(a[1..], b, key);
      assert (a + b)[1..] == a[1..] + b;
    } else {
      assert a + b == b;
    }
  }

  /** The pairs of `ps` not named `key`, in order. */
  function RemoveKey(ps: seq<Pair>, key: string): (r: seq<Pair>)
    ensures !HasKey(r, key)
    ensures forall k :: k != key ==> GetAll(r, k) == GetAll(ps, k)
  {
    if ps == [] then []
    else
      var rest := RemoveKey(ps[1..], key);
      if ps[0].0 == key then rest
      else
        var r := [ps[0]] + rest;
        assert r[1..] == rest;
        assert forall i :: 1 <= i < |r| ==> r[i] == rest[i - 1];
        r
  }

  /** `getAll` on a list with a known first pair. */
  lemma GetAllCons(p: Pair, rest: seq<Pair>, key: string)
    ensures GetAll([p] + rest, key) == (if p.0 == key then [p.1] else []) + GetAll(rest, key)
  {
    assert ([p] + rest)[1..] == rest;
  }

  /** `params.set(key, value)`: the first pair named `key` takes the value and the other
      pairs of that name are removed; when there is none, the pair is appended. */
  function SetPair(ps: seq<Pair>, key: string, value: string): (r: seq<Pair>)
    ensures !HasKey(ps, key) ==> r == ps + [(key, value)]
  {
    if ps == [] then [(key, value)]
    else if ps[0].0 == key then [(key, value)] + RemoveKey(ps[1..], key)
    else
      var rest := SetPair(ps[1..], key, value);
      assert !HasKey(ps, key) ==> !HasKey(ps[1..], key) && ps == [ps[0]] + ps[1..];
      [ps[0]] + rest
  }

  /** After `set`, the name has exactly the one value, and every other name keeps its values. */
  lemma {:induction false} SetPairValues(ps: seq<Pair>, key: string, value: string, other: string)
    requires other != key
    ensures GetAll(SetPair(ps, key, value), key) == [value]
    ensures GetAll(SetPair(ps, key, value), other) == GetAll(ps, other)
  {
    if ps == [] {
      GetAllCons((key, value), [], key);
      GetAllCons((key, value), [], other);
    } else if ps[0].0 == key {
      GetAllCons((key, value), RemoveKey(ps[1..], key), key);
      GetAllCons((key, value), RemoveKey(ps[1..], key), other);
      GetAllCons(ps[0], ps[1..], other);
      assert [ps[0]] + ps[1..] == ps;
    } else {
      SetPairValues(ps[1..], key, value, other);
      GetAllCons(ps[0], SetPair(ps[1..], key, value), key);
      GetAllCons(ps[0], SetPair(ps[1..], key, value), other);
      GetAllCons(ps[0], ps[1..], other);
      assert [ps[0]] + ps[1..] == ps;
    }
  }

  /** A `URLSearchParams` object, which the query builder fills in place. */
  class UrlSearchParams {
    var pairs: seq<Pair>

    /** `new URLSearchParams()`. */
    constructor ()
      ensures pairs == []
    {
      pairs := [];
    }

    /** `params.append(key, value)`. */
    method Append(key: string, value: string)
      modifies this
      ensures pairs == old(pairs) + [(key, value)]
    {
      pairs := pairs + [(key, value)];
    }

    /** `params.set(key, value)`. */
    method Set(key: string, value: string)
      modifies this
      ensures pairs == SetPair(old(pairs), key, value)
    {
      pairs := SetPair(pairs, key, value);
    }
  }
}
