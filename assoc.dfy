/**
 * A JavaScript object used as a dictionary with string keys that are not
 * integer-like: an insertion-ordered list of key/value bindings. Assigning to a
 * key that exists keeps its position; assigning to a new key appends it.
 */
module Assoc {
  import opened Wrappers

  type Assoc<V> = seq<(string, V)>

  predicate HasKey<V>(o: Assoc<V>, k: string) {
    exists i :: 0 <= i < |o| && o[i].0 == k
  }

  /** No key is bound twice. */
  predicate UniqueKeys<V>(o: Assoc<V>)
    decreases |o|
  {
    o == [] || (!HasKey(o[1..], o[0].0) && UniqueKeys(o[1..]))
  }

  /** `o[k]`: the value of the last binding of `k` (JSON.parse keeps the last duplicate). */
  function Lookup<V>(o: Assoc<V>, k: string): (r: Option<V>)
    ensures r.None? <==> !HasKey(o, k)
    ensures r.Some? ==> exists i :: 0 <= i < |o| && o[i] == (k, r.value)
    decreases |o|
  {
    if o == [] then None
    else
      var rest := Lookup(o[1..], k);
      if rest.Some? then
        assert forall i :: 0 <= i < |o[1..]| ==> o[1..][i] == o[i + 1];
        rest
      else if o[0].0 == k then Some(o[0].1)
      else
        assert forall i :: 0 < i < |o| ==> o[i] == o[1..][i - 1];
        None
  }

  /** `o[k] = v` on an object, whose keys are unique. */
  function Put<V>(o: Assoc<V>, k: string, v: V): (r: Assoc<V>)
    requires UniqueKeys(o)
    ensures UniqueKeys(r)
    ensures Lookup(r, k) == Some(v)
    ensures forall k' :: k' != k ==> Lookup(r, k') == Lookup(o, k')
    decreases |o|
  {
    if o == [] then [(k, v)]
    else if o[0].0 == k then
      var r := [(k, v)] + o[1..];
      assert r[1..] == o[1..];
      r
    else
      var p := Put(o[1..], k, v);
      var r := [o[0]] + p;
      assert r[1..] == p;
      assert !HasKey(p, o[0].0) by {
        assert Lookup(p, o[0].0) == Lookup(o[1..], o[0].0);
      }
      r
  }

  /** Assigning to a key that is not bound appends it. */
  lemma {:induction false} PutNew<V>(o: Assoc<V>, k: string, v: V)
    requires UniqueKeys(o) && !HasKey(o, k)
    ensures Put(o, k, v) == o + [(k, v)]
    decreases |o|
  {
    if o != [] {
      PutNew(o[1..], k, v);
      assert o == [o[0]] + o[1..];
    }
  }

  /** Dropping the last binding of an object leaves an object that does not bind that key. */
  lemma {:induction false} UniqueKeysDropLast<V>(o: Assoc<V>)
    requires UniqueKeys(o) && o != []
    ensures UniqueKeys(o[..|o| - 1]) && !HasKey(o[..|o| - 1], o[|o| - 1].0)
    decreases |o|
  {
    if |o| > 1 {
      var init := o[..|o| - 1];
      UniqueKeysDropLast(o[1..]);
      assert init[1..] == o[1..][..|o[1..]| - 1];
      assert o[|o| - 1] == o[1..][|o[1..]| - 1];
      assert !HasKey(init[1..], o[0].0) by {
        forall i | 0 <= i < |init[1..]| ensures init[1..][i].0 != o[0].0 {
          assert init[1..][i] == o[1..][i];
        }
      }
      assert o[0].0 != o[|o| - 1].0;
      assert forall i :: 0 < i < |init| ==> init[i] == init[1..][i - 1];
    }
  }
}
