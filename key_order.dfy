/**
 * The order in which `for ... in` visits the integer-like keys of a JavaScript
 * object (here, the levels of an AC's `dates`): ascending numeric order.
 */
module KeyOrder {

  predicate IsMin(k: int, s: set<int>) {
    k in s && forall j :: j in s ==> k <= j
  }

  lemma {:induction false} MinExists(s: set<int>)
    requires |s| > 0
    ensures exists k :: IsMin(k, s)
    decreases |s|
  {
    assert exists y :: y in s by {
      if forall y :: y !in s { assert false; }
    }
    var x :| x in s;
    var rest := s - {x};
    if |rest| == 0 {
      assert rest == {};
      forall j | j in s ensures x <= j { assert j in rest || j == x; }
      assert IsMin(x, s);
    } else {
      MinExists(rest);
      var m :| IsMin(m, rest);
      if x < m {
        forall j | j in s ensures x <= j { if j != x { assert j in rest; } }
        assert IsMin(x, s);
      } else {
        forall j | j in s ensures m <= j { if j != x { assert j in rest; } }
        assert IsMin(m, s);
      }
    }
  }

  /** The smallest key of a non-empty key set. */
  function Min(s: set<int>): (k: int)
    requires |s| > 0
    ensures IsMin(k, s)
  {
    MinExists(s);
    var k :| IsMin(k, s);
    k
  }

  /** `r` lists the keys of `s`, each once, in ascending order. */
  predicate Listing(r: seq<int>, s: set<int>) {
    && |r| == |s|
    && (forall i :: 0 <= i < |r| ==> r[i] in s)
    && (forall k :: k in s ==> k in r)
    && (forall i, j :: 0 <= i < j < |r| ==> r[i] < r[j])
  }

  /** The smallest key followed by a listing of the others lists them all. */
  lemma ListingCons(s: set<int>, k: int, rest: seq<int>)
    requires IsMin(k, s) && Listing(rest, s - {k})
    ensures Listing([k] + rest, s)
  {
    var r := [k] + rest;
    assert forall i :: 0 < i < |r| ==> r[i] == rest[i - 1];
    assert forall x :: x in s ==> x == k || x in s - {k};
    assert |s - {k}| == |s| - 1;
  }

  /** The keys of `s`, each once, in ascending order. */
  function Ascending(s: set<int>): (r: seq<int>)
    ensures Listing(r, s)
    decreases |s|
  {
    if |s| == 0 then []
    else
      var k := Min(s);
      var rest := Ascending(s - {k});
      ListingCons(s, k, rest);
      [k] + rest
  }
}
