/**
 * The list operations of `ObservableCollection<T>` and `List<T>` that the application
 * uses, on sequences: `IndexOf`, `RemoveAt`, `Insert`, `Remove`, `Take`.
 */
module Lists {

  /** No element occurs twice. */
  predicate NoDuplicates<T(==)>(s: seq<T>) {
    forall i, j | 0 <= i < j < |s| :: s[i] != s[j]
  }

  /** `IndexOf`: the position of the first occurrence of `x`, or -1. */
  function IndexOf<T(==)>(s: seq<T>, x: T): (i: int)
    ensures -1 <= i < |s|
    ensures i == -1 <==> x !in s
    ensures 0 <= i ==> s[i] == x && x !in s[..i]
  {
    if s == [] then -1
    else if s[0] == x then 0
    else
      var k := IndexOf(s[1..], x);
      if k < 0 then -1
      else
        assert s[..k + 1] == [s[0]] + s[1..][..k];
        k + 1
  }

  /** The first position holding `x` is the one `IndexOf` finds. */
  lemma {:induction false} IndexOfAt<T>(s: seq<T>, x: T, i: nat)
    requires i < |s| && s[i] == x && x !in s[..i]
    ensures IndexOf(s, x) == i
  {
    if i > 0 {
      assert s[0] == s[..i][0];
      assert s[1..][..i - 1] == s[1..i];
      assert forall y | y in s[1..i] :: y in s[..i];
      IndexOfAt(s[1..], x, i - 1);
    }
  }

  /** `RemoveAt(i)`: drops position `i`, later elements move down by one. */
  function RemoveAt<T>(s: seq<T>, i: nat): (r: seq<T>)
    requires i < |s|
    ensures |r| == |s| - 1
    ensures forall j | 0 <= j < i :: r[j] == s[j]
    ensures forall j | i <= j < |r| :: r[j] == s[j + 1]
  {
    s[..i] + s[i + 1..]
  }

  /** `Insert(i, x)`: puts `x` at position `i`, later elements move up by one. */
  function InsertAt<T>(s: seq<T>, i: nat, x: T): (r: seq<T>)
    requires i <= |s|
    ensures |r| == |s| + 1 && r[i] == x
    ensures forall j | 0 <= j < i :: r[j] == s[j]
    ensures forall j | i < j < |r| :: r[j] == s[j - 1]
  {
    s[..i] + [x] + s[i..]
  }

  /** Taking an element out and putting it back at the same place changes nothing. */
  lemma ReinsertSame<T>(s: seq<T>, i: nat)
    requires i < |s|
    ensures InsertAt(RemoveAt(s, i), i, s[i]) == s
  {
  }

  /** `Remove(x)`: drops the first occurrence of `x`; a list without `x` is unchanged. */
  function RemoveFirst<T(==)>(s: seq<T>, x: T): (r: seq<T>)
    ensures x !in s ==> r == s
    ensures x in s ==> |r| == |s| - 1 && multiset(r) == multiset(s) - multiset{x}
    ensures x in s ==> r == RemoveAt(s, IndexOf(s, x))
  {
    var i := IndexOf(s, x);
    if i < 0 then s
    else
      assert s == s[..i] + [x] + s[i + 1..];
      RemoveAt(s, i)
  }

  /** `Remove(x)` on a list with head `a`: the head itself, or the removal from the tail. */
  lemma RemoveFirstCons<T>(a: T, t: seq<T>, x: T)
    ensures RemoveFirst([a] + t, x) == if a == x then t else [a] + RemoveFirst(t, x)
  {
    var s := [a] + t;
    if a == x {
      IndexOfAt(s, x, 0);
      assert RemoveAt(s, 0) == t;
    } else if x in t {
      var k := IndexOf(t, x);
      assert s[..k + 1] == [a] + t[..k];
      IndexOfAt(s, x, k + 1);
      var r, q := RemoveAt(s, k + 1), [a] + RemoveAt(t, k);
      assert |r| == |q|;
      forall j | 0 <= j < |r| ensures r[j] == q[j] {
      }
    }
  }

  /** Removing from a list without duplicates leaves one without duplicates and without `x`. */
  lemma RemoveFirstNoDuplicates<T>(s: seq<T>, x: T)
    requires NoDuplicates(s)
    ensures NoDuplicates(RemoveFirst(s, x)) && x !in RemoveFirst(s, x)
  {
    if x in s {
      var i := IndexOf(s, x);
      var r := RemoveFirst(s, x);
      forall j | 0 <= j < |r| ensures r[j] != x {
        if j < i { assert r[j] == s[j]; } else { assert r[j] == s[j + 1]; }
      }
    }
  }

  /** The elements of a list, as a set. */
  function Elements<T>(s: seq<T>): (e: set<T>)
    ensures forall x | x in s :: x in e
    ensures forall x | x in e :: x in s
  {
    set x | x in s
  }

  /** A list without duplicates has as many elements as its set of elements. */
  lemma {:induction false} DistinctCount<T>(s: seq<T>)
    requires NoDuplicates(s)
    ensures |Elements(s)| == |s|
  {
    if s != [] {
      DistinctCount(s[1..]);
      assert Elements(s) == {s[0]} + Elements(s[1..]);
      assert s[0] !in Elements(s[1..]);
    }
  }

  /** `Take(n)`: the first `n` elements, or all of them when there are fewer. */
  function Take<T>(s: seq<T>, n: nat): (r: seq<T>)
    ensures |r| == if |s| < n then |s| else n
    ensures r == s[..|r|]
  {
    if |s| <= n then s else s[..n]
  }
}
