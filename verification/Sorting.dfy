/** Python's `sorted` over distinct items, under an arbitrary strict total order. */
module Sorting {

  function Elements<T>(s: seq<T>): set<T> { set x | x in s }

  /** `before` puts any two distinct items in exactly one order, consistently. */
  ghost predicate TotalOrder<T(!new)>(before: (T, T) -> bool) {
    && (forall x :: !before(x, x))
    && (forall x, y :: x == y || before(x, y) || before(y, x))
    && (forall x, y, z :: before(x, y) && before(y, z) ==> before(x, z))
  }

  ghost predicate Ordered<T(!new)>(items: seq<T>, before: (T, T) -> bool) {
    forall i, j :: 0 <= i < j < |items| ==> before(items[i], items[j])
  }

  ghost predicate IsFirst<T(!new)>(x: T, items: set<T>, before: (T, T) -> bool) {
    x in items && forall y :: y in items && y != x ==> before(x, y)
  }

  lemma {:induction false} FirstExists<T(!new)>(items: set<T>, before: (T, T) -> bool)
    requires TotalOrder(before) && items != {}
    ensures exists x :: IsFirst(x, items, before)
  {
    var x :| x in items;
    if items == {x} {
      assert IsFirst(x, items, before);
    } else {
      var rest := items - {x};
      assert rest != {} by { assert items == rest + {x}; }
      FirstExists(rest, before);
      var y :| IsFirst(y, rest, before);
      if before(x, y) {
        forall z | z in items && z != x ensures before(x, z) {
          assert z in rest;
        }
        assert IsFirst(x, items, before);
      } else {
        assert IsFirst(y, items, before);
      }
    }
  }

  /** The items in ascending order. */
  function Sorted<T(!new, ==)>(items: set<T>, before: (T, T) -> bool): (r: seq<T>)
    requires TotalOrder(before)
    ensures Ordered(r, before)
    ensures forall x :: x in r <==> x in items
    ensures |r| == |items|
  {
    if items == {} then []
    else
      FirstExists(items, before);
      assert exists x :: x in items && forall y :: y in items && y != x ==> before(x, y) by {
        var x :| IsFirst(x, items, before);
        assert x in items && forall y :: y in items && y != x ==> before(x, y);
      }
      var first :| first in items && forall y :: y in items && y != first ==> before(first, y);
      [first] + Sorted(items - {first}, before)
  }

  /** Ordering leaves no choice: two ordered listings of the same items are the same. */
  lemma {:induction false} OrderedListingIsUnique<T(!new)>(a: seq<T>, b: seq<T>, before: (T, T) -> bool)
    requires TotalOrder(before) && Ordered(a, before) && Ordered(b, before)
    requires forall x :: x in a <==> x in b
    ensures a == b
  {
    assert b != [] ==> b[0] in a;
    if a != [] {
      assert a[0] in b && b != [];
      assert a[0] == b[0];
      forall x ensures x in a[1..] <==> x in b[1..] {
        TailMembers(a, before, x);
        TailMembers(b, before, x);
      }
      OrderedListingIsUnique(a[1..], b[1..], before);
      assert a == [a[0]] + a[1..] && b == [b[0]] + b[1..];
    }
  }

  lemma TailMembers<T(!new)>(a: seq<T>, before: (T, T) -> bool, x: T)
    requires TotalOrder(before) && Ordered(a, before) && a != []
    ensures x in a[1..] <==> x in a && x != a[0]
  {
    if x in a && x != a[0] {
      var i :| 0 <= i < |a| && a[i] == x;
      assert a[1..][i - 1] == x;
    }
  }
}
