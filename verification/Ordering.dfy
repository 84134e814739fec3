/** Row keys and the ORDER BY of the repository's queries.

    Every listed table is ordered by a timestamp and, among equal timestamps, by the row's UUID.
    A UUID is its 128-bit number: PostgreSQL compares UUIDs as numbers, and so does Python when it
    compares their fixed-width lower-case hexadecimal texts. */
module Ordering {
  datatype Key = Key(at: int, id: nat)

  predicate Less(a: Key, b: Key) {
    a.at < b.at || (a.at == b.at && a.id < b.id)
  }

  predicate Increasing(s: seq<Key>) {
    forall i, j :: 0 <= i < j < |s| ==> Less(s[i], s[j])
  }

  predicate Decreasing(s: seq<Key>) {
    forall i, j :: 0 <= i < j < |s| ==> Less(s[j], s[i])
  }

  /** The same rows, as a set and as a list. */
  ghost predicate Lists(s: seq<Key>, keys: set<Key>) {
    forall k :: k in s <==> k in keys
  }

  predicate IsLeast(keys: set<Key>, k: Key) {
    k in keys && forall x :: x in keys ==> x == k || Less(k, x)
  }

  lemma {:induction false} LeastExists(keys: set<Key>)
    requires keys != {}
    ensures exists k :: IsLeast(keys, k)
    decreases |keys|
  {
    var x :| x in keys;
    var rest := keys - {x};
    assert keys == rest + {x};
    if rest == {} {
      assert IsLeast(keys, x);
    } else {
      LeastExists(rest);
      var k :| IsLeast(rest, k);
      assert IsLeast(keys, if Less(x, k) then x else k);
    }
  }

  function Least(keys: set<Key>): (k: Key)
    requires keys != {}
    ensures IsLeast(keys, k)
  {
    LeastExists(keys);
    var k :| k in keys && forall x :: x in keys ==> x == k || Less(k, x);
    k
  }

  lemma {:induction false} GreatestExists(keys: set<Key>)
    requires keys != {}
    ensures exists k :: k in keys && forall x :: x in keys ==> x == k || Less(x, k)
    decreases |keys|
  {
    var x :| x in keys;
    var rest := keys - {x};
    assert keys == rest + {x};
    if rest != {} {
      GreatestExists(rest);
      var k :| k in rest && forall y :: y in rest ==> y == k || Less(y, k);
      var g := if Less(k, x) then x else k;
      assert g in keys && forall y :: y in keys ==> y == g || Less(y, g);
    }
  }

  function Greatest(keys: set<Key>): (k: Key)
    requires keys != {}
    ensures k in keys && forall x :: x in keys ==> x == k || Less(x, k)
  {
    GreatestExists(keys);
    var k :| k in keys && forall x :: x in keys ==> x == k || Less(x, k);
    k
  }

  /** One way to carry out ORDER BY at ASC, id ASC. */
  function Sort(keys: set<Key>): (s: seq<Key>)
    ensures Increasing(s) && Lists(s, keys) && |s| == |keys|
    decreases |keys|
  {
    if keys == {} then [] else
      var k := Least(keys);
      [k] + Sort(keys - {k})
  }

  function Reverse(s: seq<Key>): (r: seq<Key>)
    ensures |r| == |s| && forall i :: 0 <= i < |s| ==> r[i] == s[|s| - 1 - i]
  {
    seq(|s|, i requires 0 <= i < |s| => s[|s| - 1 - i])
  }

  lemma ReverseLists(s: seq<Key>, keys: set<Key>)
    requires Lists(s, keys)
    ensures Lists(Reverse(s), keys)
  {
    var r := Reverse(s);
    forall k | k in keys ensures k in r {
      var i :| 0 <= i < |s| && s[i] == k;
      assert r[|s| - 1 - i] == k;
    }
  }

  /** ORDER BY at ASC, id ASC: the increasing list of the rows. */
  ghost function Ascending(keys: set<Key>): (s: seq<Key>)
    ensures Increasing(s) && Lists(s, keys) && |s| == |keys|
  {
    assert Increasing(Sort(keys));
    var s :| Increasing(s) && Lists(s, keys) && |s| == |keys|;
    s
  }

  /** ORDER BY at DESC, id DESC */
  ghost function Descending(keys: set<Key>): (s: seq<Key>)
    ensures Decreasing(s) && Lists(s, keys) && |s| == |keys|
  {
    ReverseLists(Sort(keys), keys);
    assert Decreasing(Reverse(Sort(keys)));
    var s :| Decreasing(s) && Lists(s, keys) && |s| == |keys|;
    s
  }

  /** An ORDER BY over a whole key leaves the database no choice: two listings of the same rows
      are the same list. */
  lemma {:induction false} IncreasingUnique(s: seq<Key>, t: seq<Key>)
    requires Increasing(s) && Increasing(t)
    requires forall k :: k in s <==> k in t
    ensures s == t
    decreases |s|
  {
    assert 0 < |t| ==> t[0] in t;
    if s == [] {
    } else {
      assert s[0] in t && t != [];
      assert t[0] in s;
      assert s[0] == t[0];
      forall k ensures k in s[1..] <==> k in t[1..] {
        assert k in s <==> k == s[0] || k in s[1..];
        assert k in t <==> k == t[0] || k in t[1..];
      }
      IncreasingUnique(s[1..], t[1..]);
    }
  }

  lemma {:induction false} DecreasingUnique(s: seq<Key>, t: seq<Key>)
    requires Decreasing(s) && Decreasing(t)
    requires forall k :: k in s <==> k in t
    ensures s == t
    decreases |s|
  {
    assert 0 < |t| ==> t[0] in t;
    if s == [] {
    } else {
      assert s[0] in t && t != [];
      assert t[0] in s;
      assert s[0] == t[0];
      forall k ensures k in s[1..] <==> k in t[1..] {
        assert k in s <==> k == s[0] || k in s[1..];
        assert k in t <==> k == t[0] || k in t[1..];
      }
      DecreasingUnique(s[1..], t[1..]);
    }
  }

  /** A row later than all others is listed last, and leaves the rest of the list as it was. */
  lemma AscendingAppend(keys: set<Key>, k: Key)
    requires forall x :: x in keys ==> Less(x, k)
    ensures Ascending(keys + {k}) == Ascending(keys) + [k]
  {
    var t := Ascending(keys) + [k];
    assert forall x :: x in Ascending(keys) ==> Less(x, k);
    assert forall i :: 0 <= i < |keys| ==> t[i] in Ascending(keys);
    IncreasingUnique(Ascending(keys + {k}), t);
  }
}
