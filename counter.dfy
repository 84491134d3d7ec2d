/**
 * Python dicts used as counters: insertion-ordered lists of (key, count)
 * pairs, bumped by `d.setdefault(k, 0); d[k] += 1`.
 */
module Counter {

  type Counts<K> = seq<(K, int)>

  function Keys<K>(c: Counts<K>): seq<K> {
    seq(|c|, i requires 0 <= i < |c| => c[i].0)
  }

  predicate Distinct<K(==)>(ks: seq<K>) {
    forall i, j :: 0 <= i < j < |ks| ==> ks[i] != ks[j]
  }

  /** Every count in the dict is at least one. */
  predicate Positive<K>(c: Counts<K>) {
    forall i :: 0 <= i < |c| ==> c[i].1 >= 1
  }

  /** d.get(k, 0) */
  function Get<K(==)>(c: Counts<K>, k: K): int {
    if c == [] then 0 else if c[0].0 == k then c[0].1 else Get(c[1..], k)
  }

  /** The sum of the counts. */
  function Total<K>(c: Counts<K>): int {
    if c == [] then 0 else c[0].1 + Total(c[1..])
  }

  /** d.setdefault(k, 0); d[k] += 1 — a new key goes at the end. */
  function Bump<K(==)>(c: Counts<K>, k: K): Counts<K> {
    if c == [] then [(k, 1)]
    else if c[0].0 == k then [(k, c[0].1 + 1)] + c[1..]
    else [c[0]] + Bump(c[1..], k)
  }

  /** The counter a loop builds from a sequence of keys. */
  function CountAll<K(==)>(ks: seq<K>): Counts<K> {
    if ks == [] then [] else Bump(CountAll(ks[..|ks| - 1]), ks[|ks| - 1])
  }

  /** The keys in order of first appearance. */
  function FirstSeen<K(==)>(ks: seq<K>): seq<K> {
    if ks == [] then []
    else
      var init := ks[..|ks| - 1];
      FirstSeen(init) + (if ks[|ks| - 1] in init then [] else [ks[|ks| - 1]])
  }

  lemma {:induction false} GetBump<K>(c: Counts<K>, k: K, x: K)
    ensures Get(Bump(c, k), x) == Get(c, x) + (if x == k then 1 else 0)
  {
    if c != [] && c[0].0 != k {
      GetBump(c[1..], k, x);
    }
  }

  lemma {:induction false} TotalBump<K>(c: Counts<K>, k: K)
    ensures Total(Bump(c, k)) == Total(c) + 1
  {
    if c != [] && c[0].0 != k {
      TotalBump(c[1..], k);
    }
  }

  lemma {:induction false} KeysBump<K>(c: Counts<K>, k: K)
    ensures Keys(Bump(c, k)) == if k in Keys(c) then Keys(c) else Keys(c) + [k]
  {
    if c != [] {
      assert Keys(c) == [c[0].0] + Keys(c[1..]);
      if c[0].0 != k {
        KeysBump(c[1..], k);
        assert Keys(Bump(c, k)) == [c[0].0] + Keys(Bump(c[1..], k));
      } else {
        assert Keys(Bump(c, k)) == [k] + Keys(c[1..]);
      }
    }
  }

  lemma {:induction false} PositiveBump<K>(c: Counts<K>, k: K)
    requires Positive(c)
    ensures Positive(Bump(c, k))
  {
    if c != [] && c[0].0 != k {
      PositiveBump(c[1..], k);
    }
  }

  /**
   * The counter built from a sequence of keys holds, for each key, its number
   * of occurrences, lists the keys once each in order of first appearance, has
   * no zero count, and its counts add up to the number of keys.
   */
  lemma {:induction false} CountAllSpec<K>(ks: seq<K>)
    ensures forall x :: Get(CountAll(ks), x) == multiset(ks)[x]
    ensures Keys(CountAll(ks)) == FirstSeen(ks)
    ensures Positive(CountAll(ks))
    ensures Total(CountAll(ks)) == |ks|
  {
    if ks != [] {
      var init := ks[..|ks| - 1];
      var k := ks[|ks| - 1];
      assert ks == init + [k];
      CountAllSpec(init);
      forall x ensures Get(CountAll(ks), x) == multiset(ks)[x] {
        GetBump(CountAll(init), k, x);
      }
      KeysBump(CountAll(init), k);
      FirstSeenMembers(init);
      PositiveBump(CountAll(init), k);
      TotalBump(CountAll(init), k);
    }
  }

  lemma {:induction false} FirstSeenMembers<K>(ks: seq<K>)
    ensures forall x :: x in FirstSeen(ks) <==> x in ks
  {
    if ks != [] {
      var init := ks[..|ks| - 1];
      assert ks == init + [ks[|ks| - 1]];
      FirstSeenMembers(init);
    }
  }

  /** First-appearance order lists each key once. */
  lemma {:induction false} FirstSeenDistinct<K>(ks: seq<K>)
    ensures Distinct(FirstSeen(ks))
  {
    if ks != [] {
      var init := ks[..|ks| - 1];
      FirstSeenDistinct(init);
      FirstSeenMembers(init);
    }
  }

  /** A key's count in a dict with distinct keys is the count stored beside it. */
  lemma {:induction false} GetAt<K>(c: Counts<K>, i: nat)
    requires i < |c| && Distinct(Keys(c))
    ensures Get(c, c[i].0) == c[i].1
  {
    if i > 0 {
      assert Keys(c)[0] != Keys(c)[i];
      assert Distinct(Keys(c[1..])) by {
        assert forall j :: 0 <= j < |c| - 1 ==> Keys(c[1..])[j] == Keys(c)[j + 1];
      }
      GetAt(c[1..], i - 1);
    }
  }

  /** A sequence lists each element once exactly when no element occurs twice in its multiset. */
  lemma {:induction false} DistinctCounts<T>(s: seq<T>)
    ensures Distinct(s) <==> forall x :: multiset(s)[x] <= 1
  {
    if s != [] {
      var init := s[..|s| - 1];
      var last := s[|s| - 1];
      assert s == init + [last];
      DistinctCounts(init);
      if Distinct(s) {
        assert Distinct(init) by {
          assert forall i :: 0 <= i < |init| ==> init[i] == s[i];
        }
        assert last !in init by {
          assert forall i :: 0 <= i < |init| ==> init[i] == s[i] && s[i] != s[|s| - 1];
        }
      }
      if forall x :: multiset(s)[x] <= 1 {
        assert forall x :: multiset(init)[x] <= multiset(s)[x];
        assert multiset(init)[last] == 0;
        forall i, j | 0 <= i < j < |s| ensures s[i] != s[j] {
          assert s[i] == init[i];
          if j < |s| - 1 {
            assert s[j] == init[j];
          } else {
            assert s[i] in init;
          }
        }
      }
    }
  }

  /** Rearranging a sequence of distinct elements keeps them distinct. */
  lemma PermutationDistinct<T>(a: seq<T>, b: seq<T>)
    requires multiset(a) == multiset(b) && Distinct(a)
    ensures Distinct(b)
  {
    DistinctCounts(a);
    DistinctCounts(b);
  }

  /** A key with a nonzero count is a key of the dict. */
  lemma {:induction false} GetKey<K>(c: Counts<K>, k: K)
    requires Get(c, k) != 0
    ensures k in Keys(c)
  {
    assert Keys(c)[0] == c[0].0;
    if c[0].0 != k {
      GetKey(c[1..], k);
      var i :| 0 <= i < |c| - 1 && Keys(c[1..])[i] == k;
      assert Keys(c)[i + 1] == k;
    }
  }
}
