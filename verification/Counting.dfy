/** Sizes of sets. */
module Counting {
  lemma SubsetCount<T>(a: set<T>, b: set<T>)
    requires a <= b
    ensures |a| <= |b|
  {
    assert b == a + (b - a);
  }

  /** A bijection keeps the count. */
  lemma {:induction false} SameCount<A, B>(s: set<A>, t: set<B>, f: map<A, B>)
    requires f.Keys == s && (forall x :: x in s ==> f[x] in t)
    requires forall x, y :: x in s && y in s && f[x] == f[y] ==> x == y
    requires forall b :: b in t ==> exists x :: x in s && f[x] == b
    ensures |s| == |t|
    decreases |s|
  {
    if s == {} {
      assert t == {};
    } else {
      var x :| x in s;
      var g := f - {x};
      forall b | b in t - {f[x]} ensures exists y :: y in s - {x} && g[y] == b {
        var y :| y in s && f[y] == b;
        assert g[y] == b;
      }
      SameCount(s - {x}, t - {f[x]}, g);
    }
  }
}
