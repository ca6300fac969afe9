/** A stable sort by a real-valued key.

    `Array.prototype.sort` with a comparator `(a, b) => key(a) - key(b)` is
    required to be stable (ECMAScript 2019 and later), so its result is the
    unique sequence that is sorted by `key` and keeps the input order among
    elements of equal key.  `SortBy` below is an insertion sort with exactly
    that result; lemmas `SortByKeepsEqualKeyOrder` and `SortByBreaksTiesByOrd`
    state the stability.
 */
module StableSort {

  /** `s` is non-decreasing by `key`. */
  ghost predicate SortedBy<T>(s: seq<T>, key: T -> real)
  {
    forall i, j :: 0 <= i < j < |s| ==> key(s[i]) <= key(s[j])
  }

  /** Puts `x` in front of the first element whose key is not smaller. */
  function Insert<T>(x: T, s: seq<T>, key: T -> real): (r: seq<T>)
    requires SortedBy(s, key)
    ensures SortedBy(r, key)
    ensures multiset(r) == multiset(s) + multiset{x}
    ensures |r| == |s| + 1
  {
    if s == [] || key(x) <= key(s[0]) then
      [x] + s
    else
      var rest := Insert(x, s[1..], key);
      ConsOfInsert(x, s, rest, key);
      [s[0]] + rest
  }

  /** Putting `s[0]` back in front of `x` inserted into the rest of `s`. */
  lemma ConsOfInsert<T>(x: T, s: seq<T>, rest: seq<T>, key: T -> real)
    requires s != [] && SortedBy(s, key) && key(s[0]) < key(x)
    requires SortedBy(rest, key) && multiset(rest) == multiset(s[1..]) + multiset{x}
    ensures SortedBy([s[0]] + rest, key)
    ensures multiset([s[0]] + rest) == multiset(s) + multiset{x}
  {
    assert s == [s[0]] + s[1..];
    var r := [s[0]] + rest;
    forall i, j | 0 <= i < j < |r|
      ensures key(r[i]) <= key(r[j])
    {
      assert r[j] == rest[j - 1] && rest[j - 1] in multiset(rest);
      if i > 0 {
        assert r[i] == rest[i - 1];
      } else if r[j] != x {
        assert r[j] in multiset(s[1..]);
        var m :| 0 <= m < |s[1..]| && s[1..][m] == r[j];
        assert s[m + 1] == r[j];
      }
    }
  }

  /** Stable sort of `s`, ascending by `key`. */
  function SortBy<T>(s: seq<T>, key: T -> real): (r: seq<T>)
    ensures SortedBy(r, key)
    ensures multiset(r) == multiset(s)
    ensures |r| == |s|
  {
    if s == [] then []
    else
      assert s == [s[0]] + s[1..];
      Insert(s[0], SortBy(s[1..], key), key)
  }

  /** The elements of `s` whose key is `k`, in their order in `s`. */
  function WithKey<T>(s: seq<T>, key: T -> real, k: real): (r: seq<T>)
    ensures |r| <= |s|
    ensures forall i :: 0 <= i < |r| ==> key(r[i]) == k
  {
    if s == [] then []
    else (if key(s[0]) == k then [s[0]] else []) + WithKey(s[1..], key, k)
  }

  lemma {:induction false} InsertKeepsEqualKeyOrder<T>(x: T, s: seq<T>, key: T -> real, k: real)
    requires SortedBy(s, key)
    ensures WithKey(Insert(x, s, key), key, k) == WithKey([x] + s, key, k)
  {
    assert ([x] + s)[0] == x && ([x] + s)[1..] == s;
    if s == [] || key(x) <= key(s[0]) {
    } else {
      var rest := Insert(x, s[1..], key);
      InsertKeepsEqualKeyOrder(x, s[1..], key, k);
      assert ([s[0]] + rest)[0] == s[0] && ([s[0]] + rest)[1..] == rest;
      assert ([x] + s[1..])[0] == x && ([x] + s[1..])[1..] == s[1..];
      assert WithKey([s[0]] + rest, key, k)
          == (if key(s[0]) == k then [s[0]] else []) + WithKey([x] + s[1..], key, k);
      if key(s[0]) == k {
        assert key(x) != k;
      }
    }
  }

  /** Stability: for every key value, the elements with that key appear in the
      sorted sequence in the same order as in the input. */
  lemma {:induction false} SortByKeepsEqualKeyOrder<T>(s: seq<T>, key: T -> real, k: real)
    ensures WithKey(SortBy(s, key), key, k) == WithKey(s, key, k)
  {
    if s != [] {
      SortByKeepsEqualKeyOrder(s[1..], key, k);
      InsertKeepsEqualKeyOrder(s[0], SortBy(s[1..], key), key, k);
      var t := SortBy(s[1..], key);
      assert ([s[0]] + t)[0] == s[0] && ([s[0]] + t)[1..] == t;
    }
  }

  /** Sorted by `key`, and among equal keys strictly increasing by `ord`. */
  ghost predicate SortedByThen<T>(s: seq<T>, key: T -> real, ord: T -> int)
  {
    SortedBy(s, key) &&
    forall i, j :: 0 <= i < j < |s| && key(s[i]) == key(s[j]) ==> ord(s[i]) < ord(s[j])
  }

  lemma SortedByThenTail<T>(s: seq<T>, key: T -> real, ord: T -> int)
    requires s != [] && SortedByThen(s, key, ord)
    ensures SortedByThen(s[1..], key, ord)
  {
    forall i, j | 0 <= i < j < |s[1..]| ensures key(s[1..][i]) <= key(s[1..][j]) {
      assert s[1..][i] == s[i + 1] && s[1..][j] == s[j + 1];
    }
    forall i, j | 0 <= i < j < |s[1..]| && key(s[1..][i]) == key(s[1..][j])
      ensures ord(s[1..][i]) < ord(s[1..][j])
    {
      assert s[1..][i] == s[i + 1] && s[1..][j] == s[j + 1];
    }
  }

  lemma {:induction false} InsertBreaksTiesByOrd<T>(x: T, s: seq<T>, key: T -> real, ord: T -> int)
    requires SortedByThen(s, key, ord)
    requires forall y :: y in s ==> ord(x) < ord(y)
    ensures SortedByThen(Insert(x, s, key), key, ord)
  {
    if s == [] || key(x) <= key(s[0]) {
      var r := [x] + s;
      forall i, j | 0 <= i < j < |r| && key(r[i]) == key(r[j])
        ensures ord(r[i]) < ord(r[j])
      {
        if i == 0 { assert r[j] == s[j - 1] && r[j] in s; }
        else { assert r[i] == s[i - 1] && r[j] == s[j - 1]; }
      }
    } else {
      var rest := Insert(x, s[1..], key);
      SortedByThenTail(s, key, ord);
      forall y | y in s[1..] ensures ord(x) < ord(y) {
        assert y in s;
      }
      InsertBreaksTiesByOrd(x, s[1..], key, ord);
      HeadBeforeEqualKeys(x, s, rest, key, ord);
      ConsSortedByThen(s[0], rest, key, ord);
    }
  }

  /** Every element of `Insert(x, s[1..])` has a key no smaller than that of
      `s[0]`; one with an equal key is not `x` (whose key is larger), so it is
      a later element of `s`. */
  lemma HeadBeforeEqualKeys<T>(x: T, s: seq<T>, rest: seq<T>, key: T -> real, ord: T -> int)
    requires s != [] && key(s[0]) < key(x) && SortedByThen(s, key, ord)
    requires multiset(rest) == multiset(s[1..]) + multiset{x}
    ensures forall y :: y in rest ==> key(s[0]) <= key(y)
    ensures forall y :: y in rest && key(y) == key(s[0]) ==> ord(s[0]) < ord(y)
  {
    forall y | y in rest
      ensures key(s[0]) <= key(y)
      ensures key(y) == key(s[0]) ==> ord(s[0]) < ord(y)
    {
      assert y in multiset(rest);
      if y != x {
        assert y in multiset(s[1..]);
        var m :| 0 <= m < |s[1..]| && s[1..][m] == y;
        assert s[m + 1] == y;
      }
    }
  }

  lemma ConsSortedByThen<T>(h: T, t: seq<T>, key: T -> real, ord: T -> int)
    requires SortedByThen(t, key, ord)
    requires forall y :: y in t ==> key(h) <= key(y)
    requires forall y :: y in t && key(y) == key(h) ==> ord(h) < ord(y)
    ensures SortedByThen([h] + t, key, ord)
  {
    var r := [h] + t;
    forall i, j | 0 <= i < j < |r|
      ensures key(r[i]) <= key(r[j])
      ensures key(r[i]) == key(r[j]) ==> ord(r[i]) < ord(r[j])
    {
      assert r[j] == t[j - 1] && t[j - 1] in t;
      if i > 0 { assert r[i] == t[i - 1]; }
    }
  }

  /** Tie-breaking: if `ord` strictly increases along the input, the sorted
      sequence orders elements of equal key by `ord`. */
  lemma {:induction false} SortByBreaksTiesByOrd<T>(s: seq<T>, key: T -> real, ord: T -> int)
    requires forall i, j :: 0 <= i < j < |s| ==> ord(s[i]) < ord(s[j])
    ensures SortedByThen(SortBy(s, key), key, ord)
  {
    if s != [] {
      assert forall i, j :: 0 <= i < j < |s[1..]| ==> ord(s[1..][i]) < ord(s[1..][j]) by {
        forall i, j | 0 <= i < j < |s[1..]| ensures ord(s[1..][i]) < ord(s[1..][j]) {
          assert s[1..][i] == s[i + 1] && s[1..][j] == s[j + 1];
        }
      }
      SortByBreaksTiesByOrd(s[1..], key, ord);
      var t := SortBy(s[1..], key);
      forall y | y in t ensures ord(s[0]) < ord(y) {
        assert y in multiset(t);
        assert y in multiset(s[1..]);
        var m :| 0 <= m < |s[1..]| && s[1..][m] == y;
        assert s[m + 1] == y;
      }
      InsertBreaksTiesByOrd(s[0], t, key, ord);
    }
  }

  /** The first element of the sorted sequence is an input element whose
      key is no larger than any input element's key. */
  lemma SortByFirstIsLeast<T>(s: seq<T>, key: T -> real)
    requires s != []
    ensures SortBy(s, key)[0] in s
    ensures forall j :: 0 <= j < |s| ==> key(SortBy(s, key)[0]) <= key(s[j])
  {
    var r := SortBy(s, key);
    assert r[0] in multiset(r);
    forall j | 0 <= j < |s| ensures key(r[0]) <= key(s[j]) {
      assert s[j] in multiset(s);
      var i :| 0 <= i < |r| && r[i] == s[j];
      assert i == 0 || key(r[0]) <= key(r[i]);
    }
  }

  /** Sorting a sequence whose elements are all `c` leaves it unchanged. */
  lemma SortConstant<T>(s: seq<T>, c: T, key: T -> real)
    requires forall i :: 0 <= i < |s| ==> s[i] == c
    ensures SortBy(s, key) == s
  {
    var r := SortBy(s, key);
    forall i | 0 <= i < |r|
      ensures r[i] == s[i]
    {
      assert r[i] in multiset(r);
      assert r[i] in multiset(s);
      var j :| 0 <= j < |s| && s[j] == r[i];
    }
  }
}
