/**
 * Python's sorted() in the two forms the stats table uses: `reverse=True` and
 * `key=lambda x: -x[1]`. Both are stable sorts putting the largest key first.
 */
module Sorting {

  /** Places x after every element whose key is at least key(x), so equal keys keep their order. */
  function Insert<T>(s: seq<T>, x: T, key: T -> int): seq<T> {
    if s == [] then [x]
    else if key(s[0]) >= key(x) then [s[0]] + Insert(s[1..], x, key)
    else [x] + s
  }

  /** A stable sort, largest key first. */
  function SortDesc<T>(xs: seq<T>, key: T -> int): seq<T> {
    if xs == [] then [] else Insert(SortDesc(xs[..|xs| - 1], key), xs[|xs| - 1], key)
  }

  predicate NonIncreasing<T>(s: seq<T>, key: T -> int) {
    forall i, j :: 0 <= i < j < |s| ==> key(s[i]) >= key(s[j])
  }

  /** The elements whose key is c, in their order. */
  function WithKey<T>(s: seq<T>, key: T -> int, c: int): seq<T> {
    if s == [] then []
    else (if key(s[0]) == c then [s[0]] else []) + WithKey(s[1..], key, c)
  }

  lemma {:induction false} InsertPermutes<T>(s: seq<T>, x: T, key: T -> int)
    ensures multiset(Insert(s, x, key)) == multiset(s) + multiset{x}
  {
    if s != [] && key(s[0]) >= key(x) {
      InsertPermutes(s[1..], x, key);
      assert s == [s[0]] + s[1..];
    }
  }

  lemma {:induction false} InsertBelow<T>(s: seq<T>, x: T, key: T -> int, bound: int)
    requires key(x) <= bound
    requires forall i :: 0 <= i < |s| ==> key(s[i]) <= bound
    ensures forall i :: 0 <= i < |Insert(s, x, key)| ==> key(Insert(s, x, key)[i]) <= bound
  {
    if s != [] && key(s[0]) >= key(x) {
      InsertBelow(s[1..], x, key, bound);
    }
  }

  lemma {:induction false} InsertOrdered<T>(s: seq<T>, x: T, key: T -> int)
    requires NonIncreasing(s, key)
    ensures NonIncreasing(Insert(s, x, key), key)
  {
    if s != [] && key(s[0]) >= key(x) {
      var t := s[1..];
      TailOrdered(s, key);
      InsertOrdered(t, x, key);
      InsertBelow(t, x, key, key(s[0]));
      var r := Insert(s, x, key);
      assert r == [s[0]] + Insert(t, x, key);
    }
  }

  lemma {:induction false} WithKeyAppend<T>(a: seq<T>, b: seq<T>, key: T -> int, c: int)
    ensures WithKey(a + b, key, c) == WithKey(a, key, c) + WithKey(b, key, c)
  {
    if a != [] {
      WithKeyAppend(a[1..], b, key, c);
      assert (a + b)[1..] == a[1..] + b;
    } else {
      assert a + b == b;
    }
  }

  lemma {:induction false} WithKeyNone<T>(s: seq<T>, key: T -> int, c: int)
    requires forall i :: 0 <= i < |s| ==> key(s[i]) != c
    ensures WithKey(s, key, c) == []
  {
    if s != [] {
      WithKeyNone(s[1..], key, c);
    }
  }

  lemma TailOrdered<T>(s: seq<T>, key: T -> int)
    requires s != [] && NonIncreasing(s, key)
    ensures NonIncreasing(s[1..], key)
  {
    var t := s[1..];
    forall i, j | 0 <= i < j < |t| ensures key(t[i]) >= key(t[j]) {
      assert t[i] == s[i + 1] && t[j] == s[j + 1];
    }
  }

  /** Inserting x into a sorted list puts it after every earlier element with its key and changes nothing else. */
  lemma {:induction false} InsertStable<T>(s: seq<T>, x: T, key: T -> int, c: int)
    requires NonIncreasing(s, key)
    ensures WithKey(Insert(s, x, key), key, c) == WithKey(s, key, c) + (if key(x) == c then [x] else [])
  {
    if s == [] {
      assert Insert(s, x, key) == [x];
      assert WithKey([x], key, c) == (if key(x) == c then [x] else []) + WithKey([], key, c);
    } else if key(s[0]) >= key(x) {
      var t := s[1..];
      TailOrdered(s, key);
      InsertStable(t, x, key, c);
      var r := Insert(s, x, key);
      assert r == [s[0]] + Insert(t, x, key);
      assert r[0] == s[0] && r[1..] == Insert(t, x, key);
      assert WithKey(r, key, c) == (if key(s[0]) == c then [s[0]] else []) + WithKey(Insert(t, x, key), key, c);
      assert WithKey(s, key, c) == (if key(s[0]) == c then [s[0]] else []) + WithKey(t, key, c);
    } else {
      if key(x) == c {
        forall i | 0 <= i < |s| ensures key(s[i]) != c {
          if i > 0 {
            assert key(s[0]) >= key(s[i]);
          }
        }
        WithKeyNone(s, key, c);
      }
      assert Insert(s, x, key) == [x] + s;
      WithKeyAppend([x], s, key, c);
      assert WithKey([x], key, c) == (if key(x) == c then [x] else []) + WithKey([], key, c);
    }
  }

  /** sorted() yields a permutation, largest key first, with equal keys in their original order. */
  lemma {:induction false} SortDescSpec<T>(xs: seq<T>, key: T -> int)
    ensures multiset(SortDesc(xs, key)) == multiset(xs)
    ensures NonIncreasing(SortDesc(xs, key), key)
    ensures forall c :: WithKey(SortDesc(xs, key), key, c) == WithKey(xs, key, c)
  {
    if xs != [] {
      var init := xs[..|xs| - 1];
      var x := xs[|xs| - 1];
      assert xs == init + [x];
      SortDescSpec(init, key);
      InsertPermutes(SortDesc(init, key), x, key);
      InsertOrdered(SortDesc(init, key), x, key);
      forall c ensures WithKey(SortDesc(xs, key), key, c) == WithKey(xs, key, c) {
        InsertStable(SortDesc(init, key), x, key, c);
        WithKeyAppend(init, [x], key, c);
      }
    }
  }
}
