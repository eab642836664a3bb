/** Python's ordering of `str`: by code point, a prefix before its extensions. */
module Text {
  import opened Sorting

  predicate Before(a: string, b: string) {
    if b == [] then false
    else if a == [] then true
    else if a[0] == b[0] then Before(a[1..], b[1..])
    else a[0] < b[0]
  }

  /** The texts agree before place `k`; there the first has the lower code point, or has ended. */
  predicate PrecedesAt(x: string, y: string, k: nat) {
    k <= |x| && k < |y| && (forall i :: 0 <= i < k ==> x[i] == y[i]) && (k == |x| || x[k] < y[k])
  }

  ghost predicate Precedes(x: string, y: string) { exists k: nat :: PrecedesAt(x, y, k) }

  lemma PrecedesInTail(x: string, y: string)
    requires x != [] && y != [] && x[0] == y[0]
    ensures Precedes(x, y) <==> Precedes(x[1..], y[1..])
  {
    if k: nat :| PrecedesAt(x, y, k) { assert PrecedesAt(x[1..], y[1..], k - 1); }
    if k: nat :| PrecedesAt(x[1..], y[1..], k) {
      forall i | 0 <= i < k + 1 ensures x[i] == y[i] { if i > 0 { assert x[1..][i - 1] == y[1..][i - 1]; } }
      assert PrecedesAt(x, y, k + 1);
    }
  }

  lemma {:induction false} BeforeIsLexicographic(x: string, y: string)
    ensures Before(x, y) <==> Precedes(x, y)
  {
    if x != [] && y != [] && x[0] == y[0] {
      BeforeIsLexicographic(x[1..], y[1..]);
      PrecedesInTail(x, y);
    } else if y != [] && (x == [] || x[0] < y[0]) {
      assert PrecedesAt(x, y, 0);
    }
  }

  lemma {:induction false} BeforeIsTotalOrder()
    ensures TotalOrder(Before)
  {
    forall x: string ensures !Before(x, x) { Irreflexive(x); }
    forall x: string, y: string ensures x == y || Before(x, y) || Before(y, x) { Connected(x, y); }
    forall x: string, y: string, z: string | Before(x, y) && Before(y, z) ensures Before(x, z) {
      Transitive(x, y, z);
    }
  }

  lemma {:induction false} Irreflexive(x: string)
    ensures !Before(x, x)
  {
    if x != [] { Irreflexive(x[1..]); }
  }

  lemma {:induction false} Connected(x: string, y: string)
    ensures x == y || Before(x, y) || Before(y, x)
  {
    if x != [] && y != [] && x[0] == y[0] {
      Connected(x[1..], y[1..]);
      assert x == [x[0]] + x[1..] && y == [y[0]] + y[1..];
    }
  }

  lemma {:induction false} Transitive(x: string, y: string, z: string)
    requires Before(x, y) && Before(y, z)
    ensures Before(x, z)
  {
    if x != [] && x[0] == y[0] && y[0] == z[0] {
      Transitive(x[1..], y[1..], z[1..]);
    }
  }

  /** A text with a separator splits at the first one in only one way. */
  lemma SplitsOnce(separator: char, x: string, afterX: string, y: string, afterY: string)
    requires separator !in x && separator !in y && x + [separator] + afterX == y + [separator] + afterY
    ensures x == y && afterX == afterY
  {
    var whole := x + [separator] + afterX;
    assert whole[|x|] == separator && whole[|y|] == separator;
    assert forall i :: 0 <= i < |x| ==> whole[i] == x[i] && whole[i] in x;
    assert forall i :: 0 <= i < |y| ==> whole[i] == y[i] && whole[i] in y;
    assert |x| == |y|;
    assert x == whole[..|x|] && afterX == whole[|x| + 1..];
    assert y == whole[..|y|] && afterY == whole[|y| + 1..];
  }
}
