/**
 * The two orderings the application uses: LINQ `OrderByDescending` on strings
 * (ordinal order) and the stable `OrderByDescending` on an integer key. Both are
 * insertion sorts here; the results are what the library promises: sorted, a
 * permutation, and (for the keyed sort) stable.
 */
module Sorting {
  import Text
  import Lists

  /** `a` sorts no later than `b` in descending order. */
  predicate AtLeast(a: string, b: string) {
    !Text.LexLess(a, b)
  }

  lemma AtLeastTransitive(a: string, b: string, c: string)
    requires AtLeast(a, b) && AtLeast(b, c)
    ensures AtLeast(a, c)
  {
    Text.LexLessTotal(a, b);
    Text.LexLessTotal(b, c);
    if a != b && b != c {
      Text.LexLessTransitive(c, b, a);
      Text.LexLessAsymmetric(c, a);
    } else if a == b && b != c {
    } else if b == c {
    }
  }

  predicate SortedDesc(s: seq<string>) {
    forall i, j | 0 <= i < j < |s| :: AtLeast(s[i], s[j])
  }

  function InsertDesc(x: string, s: seq<string>): (r: seq<string>)
    requires SortedDesc(s)
    ensures multiset(r) == multiset(s) + multiset{x}
    ensures SortedDesc(r)
  {
    if s == [] || AtLeast(x, s[0]) then
      forall j | 0 <= j < |s| ensures AtLeast(x, s[j]) {
        if j > 0 { AtLeastTransitive(x, s[0], s[j]); }
      }
      ConsSortedDesc(x, s);
      [x] + s
    else
      var t := InsertDesc(x, s[1..]);
      assert s == [s[0]] + s[1..];
      forall j | 0 <= j < |t| ensures AtLeast(s[0], t[j]) {
        assert t[j] in multiset(t);
        if t[j] == x {
          Text.LexLessAsymmetric(x, s[0]);
        } else {
          assert t[j] in s[1..];
        }
      }
      ConsSortedDesc(s[0], t);
      [s[0]] + t
  }

  /** A list sorted greatest first stays so behind a head at least as great as all of it. */
  lemma ConsSortedDesc(h: string, t: seq<string>)
    requires SortedDesc(t)
    requires forall j | 0 <= j < |t| :: AtLeast(h, t[j])
    ensures SortedDesc([h] + t)
  {
    var r := [h] + t;
    forall i, j | 0 <= i < j < |r| ensures AtLeast(r[i], r[j]) {
      assert r[j] == t[j - 1];
      if i > 0 {
        assert r[i] == t[i - 1];
      }
    }
  }

  /** `OrderByDescending(f => f)`: the names from greatest to least. */
  function SortDesc(s: seq<string>): (r: seq<string>)
    ensures multiset(r) == multiset(s)
    ensures SortedDesc(r)
  {
    if s == [] then []
    else
      assert s == [s[0]] + s[1..];
      InsertDesc(s[0], SortDesc(s[1..]))
  }

  lemma {:induction false} InsertDescNoDuplicates(x: string, s: seq<string>)
    requires SortedDesc(s) && Lists.NoDuplicates(s) && x !in s
    ensures Lists.NoDuplicates(InsertDesc(x, s))
  {
    if s != [] && !AtLeast(x, s[0]) {
      InsertDescNoDuplicates(x, s[1..]);
      var t := InsertDesc(x, s[1..]);
      assert s[0] !in s[1..];
      assert s[0] !in multiset(t);
    }
  }

  /** Sorting a list without duplicates gives one without duplicates. */
  lemma {:induction false} SortDescNoDuplicates(s: seq<string>)
    requires Lists.NoDuplicates(s)
    ensures Lists.NoDuplicates(SortDesc(s))
  {
    if s != [] {
      SortDescNoDuplicates(s[1..]);
      assert s[0] !in multiset(SortDesc(s[1..]));
      InsertDescNoDuplicates(s[0], SortDesc(s[1..]));
    }
  }

  /** The first element of a descending list is at least any of its elements. */
  lemma FirstIsGreatest(s: seq<string>, x: string)
    requires SortedDesc(s) && x in s
    ensures AtLeast(s[0], x)
  {
    var j :| 0 <= j < |s| && s[j] == x;
    if j == 0 {
      Text.LexLessIrreflexive(x);
    }
  }

  /** In a descending list, an element of a later part is below every different element of an earlier part. */
  lemma SplitOrder(front: seq<string>, back: seq<string>, x: string, y: string)
    requires SortedDesc(front + back) && x in front && y in back && x != y
    ensures Text.LexLess(y, x)
  {
    var i :| 0 <= i < |front| && front[i] == x;
    var j :| 0 <= j < |back| && back[j] == y;
    assert (front + back)[i] == x && (front + back)[|front| + j] == y;
    Text.LexLessTotal(x, y);
  }

  /** Sorted by `key`, greatest key first. */
  predicate SortedByKey<T>(s: seq<T>, key: T -> int) {
    forall i, j | 0 <= i < j < |s| :: key(s[i]) >= key(s[j])
  }

  /** The elements with key `k`, in order. */
  function WithKey<T>(s: seq<T>, key: T -> int, k: int): seq<T> {
    if s == [] then []
    else (if key(s[0]) == k then [s[0]] else []) + WithKey(s[1..], key, k)
  }

  /**
   * Inserts `x`, which came before every element of `s`, ahead of the first element
   * whose key is not greater than its own.
   */
  function InsertByKey<T>(x: T, s: seq<T>, key: T -> int): (r: seq<T>)
    requires SortedByKey(s, key)
    ensures multiset(r) == multiset(s) + multiset{x}
    ensures SortedByKey(r, key)
  {
    if s == [] || key(s[0]) <= key(x) then
      [x] + s
    else
      var t := InsertByKey(x, s[1..], key);
      HeadBoundsRest(s, x, t, key);
      ConsSorted(s[0], t, key);
      assert s == [s[0]] + s[1..];
      [s[0]] + t
  }

  /** A sorted list stays sorted behind a head whose key bounds all of it. */
  lemma ConsSorted<T>(h: T, t: seq<T>, key: T -> int)
    requires SortedByKey(t, key)
    requires forall j | 0 <= j < |t| :: key(h) >= key(t[j])
    ensures SortedByKey([h] + t, key)
  {
    var r := [h] + t;
    forall i, j | 0 <= i < j < |r| ensures key(r[i]) >= key(r[j]) {
      assert r[j] == t[j - 1];
      if i > 0 {
        assert r[i] == t[i - 1];
      }
    }
  }

  /** The head of a sorted list bounds a rearrangement of its tail plus a smaller element. */
  lemma HeadBoundsRest<T>(s: seq<T>, x: T, t: seq<T>, key: T -> int)
    requires SortedByKey(s, key) && |s| > 0 && key(s[0]) > key(x)
    requires multiset(t) == multiset(s[1..]) + multiset{x}
    ensures forall j | 0 <= j < |t| :: key(s[0]) >= key(t[j])
  {
    forall j | 0 <= j < |t| ensures key(s[0]) >= key(t[j]) {
      assert t[j] in multiset(t);
      if t[j] != x {
        assert t[j] in s[1..];
      }
    }
  }

  /** The inserted element goes ahead of every element with the same key. */
  lemma {:induction false} InsertByKeyStable<T>(x: T, s: seq<T>, key: T -> int, k: int)
    requires SortedByKey(s, key)
    ensures WithKey(InsertByKey(x, s, key), key, k) == (if key(x) == k then [x] else []) + WithKey(s, key, k)
  {
    var r := InsertByKey(x, s, key);
    if s == [] || key(s[0]) <= key(x) {
      assert r[1..] == s;
    } else {
      var t := InsertByKey(x, s[1..], key);
      assert r[1..] == t;
      InsertByKeyStable(x, s[1..], key, k);
    }
  }

  /**
   * The `OrderByDescending(key)` of LINQ: a permutation sorted by key, greatest first.
   */
  function SortByKeyDesc<T>(s: seq<T>, key: T -> int): (r: seq<T>)
    ensures multiset(r) == multiset(s)
    ensures SortedByKey(r, key)
  {
    if s == [] then []
    else
      assert s == [s[0]] + s[1..];
      InsertByKey(s[0], SortByKeyDesc(s[1..], key), key)
  }

  /** The sort is stable: elements with equal keys keep their relative order. */
  lemma {:induction false} SortByKeyDescStable<T>(s: seq<T>, key: T -> int, k: int)
    ensures WithKey(SortByKeyDesc(s, key), key, k) == WithKey(s, key, k)
  {
    if s != [] {
      SortByKeyDescStable(s[1..], key, k);
      InsertByKeyStable(s[0], SortByKeyDesc(s[1..], key), key, k);
    }
  }

  lemma {:induction false} WithKeyConcat<T>(a: seq<T>, b: seq<T>, key: T -> int, k: int)
    ensures WithKey(a + b, key, k) == WithKey(a, key, k) + WithKey(b, key, k)
  {
    if a != [] {
      assert (a + b)[1..] == a[1..] + b;
      WithKeyConcat(a[1..], b, key, k);
    } else {
      assert a + b == b;
    }
  }

  /** In a list sorted by key, the elements of the front have keys at least those of the back. */
  lemma KeyedSplitOrder<T>(front: seq<T>, back: seq<T>, key: T -> int)
    requires SortedByKey(front + back, key)
    ensures forall x, y | x in multiset(back) && y in front :: key(x) <= key(y)
  {
    forall x, y | x in multiset(back) && y in front ensures key(x) <= key(y) {
      var i :| 0 <= i < |front| && front[i] == y;
      var j :| 0 <= j < |back| && back[j] == x;
      assert (front + back)[i] == y && (front + back)[|front| + j] == x;
    }
  }

  /**
   * `OrderByDescending(key).Take(n)`: the `n` elements with the greatest keys
   * (all of them when there are fewer, none when `n` is not positive).
   */
  function TopByKey<T>(s: seq<T>, key: T -> int, n: int): (r: seq<T>)
    ensures |r| == if n <= 0 then 0 else if |s| < n then |s| else n
    ensures multiset(r) <= multiset(s)
    ensures SortedByKey(r, key)
    ensures forall x, y | x in multiset(s) - multiset(r) && y in r :: key(x) <= key(y)
  {
    var sorted := SortByKeyDesc(s, key);
    var r := Lists.Take(sorted, if n <= 0 then 0 else n);
    var rest := sorted[|r|..];
    assert sorted == r + rest;
    assert multiset(s) - multiset(r) == multiset(rest);
    KeyedSplitOrder(r, rest, key);
    r
  }

  /** Ties keep their order: the elements of one key in the result begin the elements of that key in `s`. */
  lemma TopByKeyStable<T>(s: seq<T>, key: T -> int, n: int, k: int)
    ensures var w := WithKey(TopByKey(s, key, n), key, k);
      |w| <= |WithKey(s, key, k)| && w == WithKey(s, key, k)[..|w|]
  {
    var sorted := SortByKeyDesc(s, key);
    var r := TopByKey(s, key, n);
    assert r == sorted[..|r|];
    PrefixWithKey(sorted, |r|, key, k);
    SortByKeyDescStable(s, key, k);
  }

  /** The elements of one key in a prefix begin the elements of that key in the whole. */
  lemma PrefixWithKey<T>(s: seq<T>, m: nat, key: T -> int, k: int)
    requires m <= |s|
    ensures var w := WithKey(s[..m], key, k);
      |w| <= |WithKey(s, key, k)| && w == WithKey(s, key, k)[..|w|]
  {
    var front, back := s[..m], s[m..];
    assert s == front + back;
    WithKeyConcat(front, back, key, k);
    var w := WithKey(front, key, k);
    assert (w + WithKey(back, key, k))[..|w|] == w;
  }

  /** Sorted by `key` in ascending ordinal order. */
  predicate SortedByName<T>(s: seq<T>, key: T -> string) {
    forall i, j | 0 <= i < j < |s| :: AtLeast(key(s[j]), key(s[i]))
  }

  /** Inserts `x`, which came before every element of `s`, ahead of the first element whose key is not below its own. */
  function InsertByName<T>(x: T, s: seq<T>, key: T -> string): (r: seq<T>)
    requires SortedByName(s, key)
    ensures multiset(r) == multiset(s) + multiset{x}
    ensures SortedByName(r, key)
  {
    if s == [] || AtLeast(key(s[0]), key(x)) then
      forall j | 0 <= j < |s| ensures AtLeast(key(s[j]), key(x)) {
        if j > 0 { AtLeastTransitive(key(s[j]), key(s[0]), key(x)); }
      }
      ConsSortedByName(x, s, key);
      [x] + s
    else
      var t := InsertByName(x, s[1..], key);
      assert s == [s[0]] + s[1..];
      Text.LexLessAsymmetric(key(s[0]), key(x));
      forall j | 0 <= j < |t| ensures AtLeast(key(t[j]), key(s[0])) {
        assert t[j] in multiset(t);
        if t[j] != x {
          assert t[j] in s[1..];
        }
      }
      ConsSortedByName(s[0], t, key);
      [s[0]] + t
  }

  /** A list sorted by name stays so behind a head whose key is at most all of its keys. */
  lemma ConsSortedByName<T>(h: T, t: seq<T>, key: T -> string)
    requires SortedByName(t, key)
    requires forall j | 0 <= j < |t| :: AtLeast(key(t[j]), key(h))
    ensures SortedByName([h] + t, key)
  {
    var r := [h] + t;
    forall i, j | 0 <= i < j < |r| ensures AtLeast(key(r[j]), key(r[i])) {
      assert r[j] == t[j - 1];
      if i > 0 {
        assert r[i] == t[i - 1];
      }
    }
  }

  /** LINQ `OrderBy(key)` with the ordinal order: a permutation in ascending key order. */
  function SortByName<T>(s: seq<T>, key: T -> string): (r: seq<T>)
    ensures multiset(r) == multiset(s)
    ensures SortedByName(r, key)
  {
    if s == [] then []
    else
      assert s == [s[0]] + s[1..];
      InsertByName(s[0], SortByName(s[1..], key), key)
  }
}
