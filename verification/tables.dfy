/**
 Tables as maps from primary-key id to record: the ascending-id order in which
 rows are read back, fresh ids for inserted rows, and filtering by a column.
 */
module Tables {

  /** `m` is the least element of `s`. */
  predicate IsLeast(m: int, s: set<int>) {
    m in s && forall y :: y in s ==> m <= y
  }

  /** A set that is not empty has a member. */
  lemma NonEmptyHasMember(s: set<int>)
    ensures s != {} ==> exists x :: x in s
  {
    if forall x :: x !in s {
      assert s == {};
    }
  }

  /** Every non-empty finite set of integers has a least element. */
  lemma {:induction false} LeastExists(s: set<int>)
    requires s != {}
    ensures exists m :: IsLeast(m, s)
    decreases s
  {
    NonEmptyHasMember(s);
    var x :| x in s;
    if s == {x} {
      assert IsLeast(x, s);
    } else {
      var rest := s - {x};
      LeastExists(rest);
      var m :| IsLeast(m, rest);
      var least := if x < m then x else m;
      forall y | y in s ensures least <= y {
        if y != x {
          assert y in rest;
        }
      }
      assert IsLeast(least, s);
    }
  }

  function Least(s: set<int>): (m: int)
    requires s != {}
    ensures IsLeast(m, s)
  {
    LeastExists(s);
    var m :| IsLeast(m, s);
    m
  }

  predicate Ascending(xs: seq<int>) {
    forall i, j :: 0 <= i < j < |xs| ==> xs[i] < xs[j]
  }

  /** The ids of a table in the order the store returns its rows. */
  function SortedKeys(s: set<int>): (r: seq<int>)
    ensures Ascending(r)
    ensures forall k :: k in r <==> k in s
    ensures |r| == |s|
    decreases s
  {
    if s == {} then []
    else
      var m := Least(s);
      [m] + SortedKeys(s - {m})
  }

  /** An id no row of the table uses, as the store hands out on insert. */
  function FreshId(s: set<int>): (r: int)
    ensures r !in s
    ensures r >= 1
    ensures forall k :: k in s ==> k < r
  {
    var keys := SortedKeys(s);
    if |keys| == 0 then 1
    else
      var top := keys[|keys| - 1];
      assert forall k :: k in s ==> k <= top by {
        forall k | k in s ensures k <= top {
          var i :| 0 <= i < |keys| && keys[i] == k;
          assert i == |keys| - 1 || keys[i] < keys[|keys| - 1];
        }
      }
      if top < 1 then 1 else top + 1
  }

  /** The rows of a table, in ascending id order. */
  function Rows<T(==, !new)>(m: map<int, T>): (r: seq<T>)
    ensures |r| == |m|
    ensures forall i :: 0 <= i < |r| ==> SortedKeys(m.Keys)[i] in m && r[i] == m[SortedKeys(m.Keys)[i]]
    ensures forall x :: x in r <==> x in m.Values
  {
    var keys := SortedKeys(m.Keys);
    ListedKeysAreKeys(m, keys);
    var r := seq(|keys|, i requires 0 <= i < |keys| => m[keys[i]]);
    ListingHoldsEveryRow(m, keys, r);
    r
  }

  /** Every entry of a sequence holding exactly the ids of a table is an id of it. */
  lemma ListedKeysAreKeys<T>(m: map<int, T>, keys: seq<int>)
    requires forall k :: k in keys <==> k in m.Keys
    ensures forall i :: 0 <= i < |keys| ==> keys[i] in m
  {
    forall i | 0 <= i < |keys| ensures keys[i] in m {
      var k := keys[i];
      assert k in keys;
    }
  }

  /** A row of a table sits under some id of it. */
  lemma ValueHasKey<T>(m: map<int, T>, x: T)
    ensures x in m.Values ==> exists k :: k in m && m[k] == x
  {
    if forall k :: k in m ==> m[k] != x {
      assert x !in m.Values;
    }
  }

  /** Listing the rows under a sequence of every id of a table lists every row of it, and nothing else. */
  lemma ListingHoldsEveryRow<T>(m: map<int, T>, keys: seq<int>, r: seq<T>)
    requires forall i :: 0 <= i < |keys| ==> keys[i] in m
    requires forall k :: k in m ==> k in keys
    requires |r| == |keys|
    requires forall i :: 0 <= i < |r| ==> r[i] == m[keys[i]]
    ensures forall x :: x in r <==> x in m.Values
  {
    forall x | x in r ensures x in m.Values {
      var i :| 0 <= i < |r| && r[i] == x;
      assert keys[i] in m;
    }
    forall x | x in m.Values ensures x in r {
      ValueHasKey(m, x);
      var k :| k in m && m[k] == x;
      var i :| 0 <= i < |keys| && keys[i] == k;
      assert r[i] == x;
    }
  }

  /** A subset is no larger than the set that contains it. */
  lemma {:induction false} SubsetNoLarger(a: set<int>, b: set<int>)
    requires a <= b
    ensures |a| <= |b|
    decreases a
  {
    if a != {} {
      NonEmptyHasMember(a);
      var x :| x in a;
      SubsetNoLarger(a - {x}, b - {x});
    }
  }

  /** A table whose ids are among another's has no more rows. */
  lemma SubtableNoLarger<T>(a: map<int, T>, b: map<int, T>)
    requires a.Keys <= b.Keys
    ensures |a| <= |b|
  {
    SubsetNoLarger(a.Keys, b.Keys);
  }
}
