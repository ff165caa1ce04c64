// Sorting by a pair of numeric keys, as the library sorts of the original do it.
module Sorting {
  predicate LexLe(x: (nat, nat), y: (nat, nat))
  {
    x.0 < y.0 || (x.0 == y.0 && x.1 <= y.1)
  }

  predicate Ordered<T>(s: seq<T>, key: T -> (nat, nat))
  {
    forall i, j :: 0 <= i < j < |s| ==> LexLe(key(s[i]), key(s[j]))
  }

  function Insert<T>(x: T, s: seq<T>, key: T -> (nat, nat)): (r: seq<T>)
    ensures multiset(r) == multiset{x} + multiset(s)
    ensures |r| == |s| + 1
  {
    if s == [] then [x]
    else if LexLe(key(x), key(s[0])) then [x] + s
    else
      assert s == [s[0]] + s[1..];
      [s[0]] + Insert(x, s[1..], key)
  }

  function Sort<T>(s: seq<T>, key: T -> (nat, nat)): (r: seq<T>)
    ensures multiset(r) == multiset(s)
    ensures |r| == |s|
  {
    if s == [] then []
    else
      assert s == [s[0]] + s[1..];
      Insert(s[0], Sort(s[1..], key), key)
  }

  lemma {:induction false} InsertOrders<T>(x: T, s: seq<T>, key: T -> (nat, nat))
    requires Ordered(s, key)
    ensures Ordered(Insert(x, s, key), key)
  {
    if s != [] && !LexLe(key(x), key(s[0])) {
      InsertOrders(x, s[1..], key);
      var rest := Insert(x, s[1..], key);
      forall j | 0 <= j < |rest|
        ensures LexLe(key(s[0]), key(rest[j]))
      {
        assert rest[j] in multiset(rest);
      }
    }
  }

  lemma {:induction false} SortOrders<T>(s: seq<T>, key: T -> (nat, nat))
    ensures Ordered(Sort(s, key), key)
  {
    if s != [] {
      SortOrders(s[1..], key);
      InsertOrders(s[0], Sort(s[1..], key), key);
    }
  }

  // With pairwise different keys only one ordering exists, so an unstable sort yields it too.
  lemma {:induction false} OrderIsUnique<T>(s: seq<T>, t: seq<T>, key: T -> (nat, nat))
    requires Ordered(s, key) && Ordered(t, key) && multiset(s) == multiset(t)
    requires forall x, y :: x in s && y in s && key(x) == key(y) ==> x == y
    ensures s == t
    decreases |s|
  {
    assert |s| == |multiset(s)| == |multiset(t)| == |t|;
    if s != [] {
      SameHead(s, t, key);
      TailOf(s);
      TailOf(t);
      assert s == [s[0]] + s[1..] && t == [t[0]] + t[1..];
      OrderIsUnique(s[1..], t[1..], key);
    }
  }

  lemma SameHead<T>(s: seq<T>, t: seq<T>, key: T -> (nat, nat))
    requires s != [] && t != [] && Ordered(s, key) && Ordered(t, key) && multiset(s) == multiset(t)
    requires forall x, y :: x in s && y in s && key(x) == key(y) ==> x == y
    ensures s[0] == t[0]
  {
    assert s[0] in multiset(t) && t[0] in multiset(s);
    assert LexLe(key(s[0]), key(t[0])) && LexLe(key(t[0]), key(s[0]));
  }

  lemma TailOf<T>(s: seq<T>)
    requires s != []
    ensures multiset(s[1..]) == multiset(s) - multiset{s[0]}
    ensures forall x :: x in s[1..] ==> x in s
  {
    assert s == [s[0]] + s[1..];
  }

  // ---- Pairwise properties survive reordering ----

  ghost predicate Pairwise<T(!new)>(s: seq<T>, r: (T, T) -> bool)
  {
    forall i, j :: 0 <= i < j < |s| ==> r(s[i], s[j])
  }

  ghost predicate Symmetric<T(!new)>(r: (T, T) -> bool)
  {
    forall x, y :: r(x, y) ==> r(y, x)
  }

  lemma {:induction false} TwoPlaces<T>(s: seq<T>, x: T) returns (i: nat, j: nat)
    requires multiset(s)[x] >= 2
    ensures i < j < |s| && s[i] == s[j] == x
  {
    assert s == s[..|s| - 1] + [s[|s| - 1]];
    var q := s[..|s| - 1];
    if s[|s| - 1] == x {
      assert multiset(q)[x] >= 1;
      assert x in q;
      i :| 0 <= i < |q| && q[i] == x;
      j := |s| - 1;
    } else {
      i, j := TwoPlaces(q, x);
    }
  }

  lemma PairwisePermutes<T(!new)>(s: seq<T>, t: seq<T>, r: (T, T) -> bool)
    requires Pairwise(s, r) && Symmetric(r) && multiset(s) == multiset(t)
    ensures Pairwise(t, r)
  {
    forall i, j | 0 <= i < j < |t|
      ensures r(t[i], t[j])
    {
      var x, y := t[i], t[j];
      if x == y {
        assert t == t[..j] + t[j..];
        assert multiset(t) == multiset(t[..j]) + multiset(t[j..]);
        assert t[..j][i] == x && t[j..][0] == x;
        var k, l := TwoPlaces(s, x);
      } else {
        assert x in multiset(t) && y in multiset(t);
        assert x in s && y in s;
        var k :| 0 <= k < |s| && s[k] == x;
        var l :| 0 <= l < |s| && s[l] == y;
      }
    }
  }
}
