/**
 * A JavaScript object used as a dictionary: string keys in insertion order (the order a
 * `for (k in obj)` loop and JSON.stringify visit them) and the value of each key.
 * None of the keys the program stores (paths, user names, ids) is an array index, so
 * insertion order is the whole of the enumeration order.
 */
module Dicts {
  import opened Wrappers

  datatype Dict<V> = Dict(keys: seq<string>, vals: map<string, V>)

  predicate Distinct(s: seq<string>)
  {
    forall i, j :: 0 <= i < j < |s| ==> s[i] != s[j]
  }

  /** The keys are enumerated once each, and exactly the keys with a value. */
  ghost predicate Valid<V>(d: Dict<V>)
  {
    Distinct(d.keys) && (forall k :: k in d.vals <==> k in d.keys)
  }

  function Empty<V>(): (r: Dict<V>)
    ensures Valid(r) && r.vals == map[]
  {
    Dict([], map[])
  }

  /** `obj[k]` for a dictionary of nullable values: undefined (None) for a missing key. */
  function Get<V>(d: Dict<Option<V>>, k: string): Option<V>
  {
    if k in d.vals then d.vals[k] else None
  }

  /** `s` with the members of `drop` taken out, the rest in their order. */
  function Without(s: seq<string>, drop: set<string>): (r: seq<string>)
    ensures forall x :: x in r <==> x in s && x !in drop
    ensures |r| <= |s|
    ensures Distinct(s) ==> Distinct(r)
  {
    if s == [] then []
    else if s[0] in drop then Without(s[1..], drop)
    else
      var rest := Without(s[1..], drop);
      assert Distinct(s) ==> Distinct(s[1..]) by {
        if Distinct(s) {
          forall i, j | 0 <= i < j < |s[1..]| ensures s[1..][i] != s[1..][j] {
            assert s[1..][i] == s[i + 1] && s[1..][j] == s[j + 1];
          }
        }
      }
      [s[0]] + rest
  }

  /** `obj[k] = v`: a new key goes to the end, an existing one keeps its place. */
  function Set<V>(d: Dict<V>, k: string, v: V): (r: Dict<V>)
    requires Valid(d)
    ensures Valid(r)
    ensures r.vals == d.vals[k := v]
    ensures r.keys == if k in d.vals then d.keys else d.keys + [k]
  {
    if k in d.vals then Dict(d.keys, d.vals[k := v]) else Dict(d.keys + [k], d.vals[k := v])
  }

  /** `delete obj[k]`, for every k of `ks`. */
  function RemoveAll<V>(d: Dict<V>, ks: set<string>): (r: Dict<V>)
    requires Valid(d)
    ensures Valid(r)
    ensures r.vals == d.vals - ks
    ensures forall k :: k in r.keys <==> k in d.keys && k !in ks
  {
    Dict(Without(d.keys, ks), d.vals - ks)
  }

  /** `delete obj[k]`. */
  function Remove<V>(d: Dict<V>, k: string): (r: Dict<V>)
    requires Valid(d)
    ensures Valid(r)
    ensures r.vals == d.vals - {k}
  {
    RemoveAll(d, {k})
  }

  lemma {:induction false} WithoutUnion(s: seq<string>, a: set<string>, b: set<string>)
    ensures Without(Without(s, a), b) == Without(s, a + b)
  {
    if s != [] {
      WithoutUnion(s[1..], a, b);
    }
  }

  /** Deleting keys one at a time is deleting them all at once. */
  lemma RemoveAllThenRemove<V>(d: Dict<V>, ks: set<string>, k: string)
    requires Valid(d)
    ensures Remove(RemoveAll(d, ks), k) == RemoveAll(d, ks + {k})
  {
    WithoutUnion(d.keys, ks, {k});
  }

  lemma {:induction false} WithoutNothing(s: seq<string>)
    ensures Without(s, {}) == s
  {
    if s != [] {
      WithoutNothing(s[1..]);
    }
  }

  /** Deleting no key leaves the dictionary as it is. */
  lemma RemoveNothing<V>(d: Dict<V>)
    requires Valid(d)
    ensures RemoveAll(d, {}) == d
  {
    WithoutNothing(d.keys);
  }

  lemma {:induction false} WithoutConcat(s: seq<string>, t: seq<string>, drop: set<string>)
    ensures Without(s + t, drop) == Without(s, drop) + Without(t, drop)
  {
    if s != [] {
      var u := s + t;
      assert u[0] == s[0] && u[1..] == s[1..] + t;
      WithoutConcat(s[1..], t, drop);
      var a, b := Without(s[1..], drop), Without(t, drop);
      if s[0] in drop {
        assert Without(u, drop) == a + b;
        assert Without(s, drop) == a;
      } else {
        assert Without(u, drop) == [s[0]] + (a + b);
        assert Without(s, drop) == [s[0]] + a;
        assert [s[0]] + (a + b) == ([s[0]] + a) + b;
      }
    } else {
      assert s + t == t;
    }
  }

  /** Deleting keys in two rounds is deleting their union. */
  lemma RemoveAllTwice<V>(d: Dict<V>, a: set<string>, b: set<string>)
    requires Valid(d)
    ensures RemoveAll(RemoveAll(d, a), b) == RemoveAll(d, a + b)
  {
    WithoutUnion(d.keys, a, b);
  }

  /** Deleting a key afterwards undoes assigning it, whether or not it was there. */
  lemma RemoveAllAfterSet<V>(d: Dict<V>, k: string, v: V, ks: set<string>)
    requires Valid(d) && k in ks
    ensures RemoveAll(Set(d, k, v), ks) == RemoveAll(d, ks)
  {
    var r := Set(d, k, v);
    assert r.vals - ks == d.vals - ks;
    if k !in d.vals {
      WithoutConcat(d.keys, [k], ks);
      assert Without([k], ks) == Without([], ks);
      assert Without(r.keys, ks) == Without(d.keys, ks);
    }
  }
}
