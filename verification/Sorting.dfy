/** Sorting by a real key, standing for the library sort. */
module Sorting {

  ghost predicate Ascending<T>(key: T -> real, s: seq<T>) {
    forall i, j :: 0 <= i < j < |s| ==> key(s[i]) <= key(s[j])
  }

  function Insert<T>(key: T -> real, x: T, s: seq<T>): (t: seq<T>)
    ensures |t| == |s| + 1
  {
    if s == [] then [x]
    else if key(x) <= key(s[0]) then [x] + s
    else [s[0]] + Insert(key, x, s[1..])
  }

  /** The elements in increasing order of their key; equal keys keep their order. */
  function SortBy<T>(key: T -> real, s: seq<T>): (t: seq<T>)
    ensures |t| == |s|
  {
    if s == [] then [] else Insert(key, s[0], SortBy(key, s[1..]))
  }

  lemma Prepends<T>(key: T -> real, first: T, rest: seq<T>)
    requires Ascending(key, rest) && (rest != [] ==> key(first) <= key(rest[0]))
    ensures Ascending(key, [first] + rest)
  {
    var all := [first] + rest;
    forall i, j | 0 <= i < j < |all| ensures key(all[i]) <= key(all[j]) {
      assert all[j] == rest[j - 1];
      if i > 0 {
        assert all[i] == rest[i - 1];
      }
    }
  }

  lemma {:induction false} InsertAscends<T>(key: T -> real, x: T, s: seq<T>)
    requires Ascending(key, s)
    ensures Ascending(key, Insert(key, x, s))
  {
    if s != [] {
      if key(x) <= key(s[0]) {
        Prepends(key, x, s);
      } else {
        InsertAscends(key, x, s[1..]);
        Prepends(key, s[0], Insert(key, x, s[1..]));
      }
    }
  }

  lemma {:induction false} InsertKeeps<T>(key: T -> real, x: T, s: seq<T>)
    ensures multiset(Insert(key, x, s)) == multiset(s) + multiset{x}
  {
    if s != [] && key(x) > key(s[0]) {
      InsertKeeps(key, x, s[1..]);
      assert s == [s[0]] + s[1..];
    }
  }

  /** The sort returns the same elements in order. */
  lemma {:induction false} SortSorts<T>(key: T -> real, s: seq<T>)
    ensures Ascending(key, SortBy(key, s)) && multiset(SortBy(key, s)) == multiset(s)
  {
    if s != [] {
      SortSorts(key, s[1..]);
      InsertAscends(key, s[0], SortBy(key, s[1..]));
      InsertKeeps(key, s[0], SortBy(key, s[1..]));
      assert s == [s[0]] + s[1..];
    }
  }

  lemma {:induction false} SortedIsFixed<T>(key: T -> real, s: seq<T>)
    requires Ascending(key, s)
    ensures SortBy(key, s) == s
  {
    if s != [] {
      SortedIsFixed(key, s[1..]);
    }
  }

  /** Distinct keys: an element is known by its key. */
  ghost predicate KeysDistinct<T>(key: T -> real, s: seq<T>) {
    forall x, y :: x in s && y in s && key(x) == key(y) ==> x == y
  }

  lemma LeastFirst<T>(key: T -> real, a: seq<T>, b: seq<T>)
    requires Ascending(key, a) && a != [] && b != [] && multiset(a) == multiset(b)
    ensures key(a[0]) <= key(b[0])
  {
    assert b[0] in multiset(a);
    var i :| 0 <= i < |a| && a[i] == b[0];
  }

  lemma HeadsAgree<T>(key: T -> real, a: seq<T>, b: seq<T>)
    requires Ascending(key, a) && Ascending(key, b) && multiset(a) == multiset(b) && KeysDistinct(key, a)
    requires a != [] && b != []
    ensures a[0] == b[0]
  {
    LeastFirst(key, a, b);
    LeastFirst(key, b, a);
    assert b[0] in multiset(a);
  }

  lemma TailsAgree<T>(a: seq<T>, b: seq<T>)
    requires a != [] && b != [] && a[0] == b[0] && multiset(a) == multiset(b)
    ensures multiset(a[1..]) == multiset(b[1..])
  {
    assert a == [a[0]] + a[1..] && b == [b[0]] + b[1..];
    assert multiset(a[1..]) == multiset(a) - multiset{a[0]};
    assert multiset(b[1..]) == multiset(b) - multiset{b[0]};
  }

  /** Two sorted arrangements of the same elements are the same when keys tell elements apart. */
  lemma {:induction false} AscendingUnique<T>(key: T -> real, a: seq<T>, b: seq<T>)
    requires Ascending(key, a) && Ascending(key, b) && multiset(a) == multiset(b) && KeysDistinct(key, a)
    ensures a == b
  {
    assert |multiset(a)| == |a| && |multiset(b)| == |b|;
    if a != [] {
      HeadsAgree(key, a, b);
      TailsAgree(a, b);
      AscendingUnique(key, a[1..], b[1..]);
      assert a == [a[0]] + a[1..] && b == [b[0]] + b[1..];
    }
  }

  /** Sorting forgets the order the elements came in. */
  lemma SortPermuted<T>(key: T -> real, a: seq<T>, b: seq<T>)
    requires multiset(a) == multiset(b) && KeysDistinct(key, a)
    ensures SortBy(key, a) == SortBy(key, b)
  {
    SortSorts(key, a);
    SortSorts(key, b);
    var s := SortBy(key, a);
    forall x, y | x in s && y in s && key(x) == key(y) ensures x == y {
      assert x in multiset(a) && y in multiset(a);
    }
    AscendingUnique(key, s, SortBy(key, b));
  }
}
