/**
 * Python's `sorted(xs, key=key, reverse=True)`: a stable sort into non-increasing key
 * order. Elements with equal keys keep their input order, as Python documents for
 * `reverse=True`.
 */
module Sorting {

  /** `lt` is a strict total order on keys (Python's `<` on ints, or on strings). */
  ghost predicate StrictTotalOrder<K(!new)>(lt: (K, K) -> bool) {
    && (forall a :: !lt(a, a))
    && (forall a, b, c :: lt(a, b) && lt(b, c) ==> lt(a, c))
    && (forall a, b :: a == b || lt(a, b) || lt(b, a))
  }

  /** No element's key is below a later element's key. */
  ghost predicate NonIncreasing<T, K>(r: seq<T>, key: T -> K, lt: (K, K) -> bool) {
    forall i, j :: 0 <= i < j < |r| ==> !lt(key(r[i]), key(r[j]))
  }

  /** The elements of `s` whose key is `k`, in their order in `s`. */
  function WithKey<T, K(==)>(s: seq<T>, key: T -> K, k: K): seq<T> {
    if s == [] then [] else (if key(s[0]) == k then [s[0]] else []) + WithKey(s[1..], key, k)
  }

  /** Inserts `x` in front of the first element whose key is not above `x`'s. */
  function Insert<T, K>(x: T, r: seq<T>, key: T -> K, lt: (K, K) -> bool): (out: seq<T>)
    ensures multiset(out) == multiset(r) + multiset{x}
  {
    if r == [] then [x]
    else if lt(key(x), key(r[0])) then
      assert r == [r[0]] + r[1..];
      [r[0]] + Insert(x, r[1..], key, lt)
    else [x] + r
  }

  lemma {:induction false} InsertNonIncreasing<T, K(!new)>(x: T, r: seq<T>, key: T -> K, lt: (K, K) -> bool)
    requires StrictTotalOrder(lt) && NonIncreasing(r, key, lt)
    ensures NonIncreasing(Insert(x, r, key, lt), key, lt)
  {
    if r == [] {
    } else if lt(key(x), key(r[0])) {
      var tail := Insert(x, r[1..], key, lt);
      InsertNonIncreasing(x, r[1..], key, lt);
      forall j | 0 <= j < |tail| ensures !lt(key(r[0]), key(tail[j])) {
        assert tail[j] in multiset(tail);
        if tail[j] == x {
          assert !lt(key(r[0]), key(r[0]));
        } else {
          assert tail[j] in multiset(r[1..]);
          var m :| 0 <= m < |r[1..]| && r[1..][m] == tail[j];
          assert r[m + 1] == tail[j];
        }
      }
      var out := [r[0]] + tail;
      forall i, j | 0 <= i < j < |out| ensures !lt(key(out[i]), key(out[j])) {
        assert out[j] == tail[j - 1];
        if i > 0 {
          assert out[i] == tail[i - 1];
        }
      }
    } else {
      var out := [x] + r;
      forall i, j | 0 <= i < j < |out| ensures !lt(key(out[i]), key(out[j])) {
        if i == 0 {
          assert out[j] == r[j - 1];
          assert !lt(key(r[0]), key(r[j - 1])) || j - 1 == 0;
        }
      }
    }
  }

  lemma WithKeyCons<T, K>(a: T, t: seq<T>, key: T -> K, k: K)
    ensures WithKey([a] + t, key, k) == (if key(a) == k then [a] else []) + WithKey(t, key, k)
  {
    assert ([a] + t)[1..] == t;
  }

  lemma SwapEmpty<T>(a: seq<T>, b: seq<T>, c: seq<T>)
    requires a == [] || b == []
    ensures a + (b + c) == b + (a + c)
  {
  }

  lemma {:induction false} InsertWithKey<T, K>(x: T, r: seq<T>, key: T -> K, lt: (K, K) -> bool, k: K)
    requires !lt(key(x), key(x))
    ensures WithKey(Insert(x, r, key, lt), key, k) == (if key(x) == k then [x] else []) + WithKey(r, key, k)
    decreases |r|
  {
    if r == [] {
      WithKeyCons(x, [], key, k);
    } else if lt(key(x), key(r[0])) {
      InsertWithKeyPast(x, r, key, lt, k);
    } else {
      WithKeyCons(x, r, key, k);
    }
  }

  lemma {:induction false} InsertWithKeyPast<T, K>(x: T, r: seq<T>, key: T -> K, lt: (K, K) -> bool, k: K)
    requires !lt(key(x), key(x))
    requires r != [] && lt(key(x), key(r[0]))
    ensures WithKey(Insert(x, r, key, lt), key, k) == (if key(x) == k then [x] else []) + WithKey(r, key, k)
    decreases |r|, 0
  {
    var tail := Insert(x, r[1..], key, lt);
    var rest := WithKey(r[1..], key, k);
    var mx: seq<T> := if key(x) == k then [x] else [];
    var m0: seq<T> := if key(r[0]) == k then [r[0]] else [];
    assert Insert(x, r, key, lt) == [r[0]] + tail;
    InsertWithKey(x, r[1..], key, lt, k);
    WithKeyCons(r[0], tail, key, k);
    WithKeyCons(r[0], r[1..], key, k);
    assert r == [r[0]] + r[1..];
    SwapEmpty(m0, mx, rest);
  }

  /** Python `sorted(s, key=key, reverse=True)`. */
  function SortDesc<T, K(==,!new)>(s: seq<T>, key: T -> K, lt: (K, K) -> bool): (r: seq<T>)
    ensures multiset(r) == multiset(s)
    ensures |r| == |s|
    ensures StrictTotalOrder(lt) ==> NonIncreasing(r, key, lt)
    ensures StrictTotalOrder(lt) ==> forall k :: WithKey(r, key, k) == WithKey(s, key, k)
  {
    if s == [] then []
    else
      var tail := SortDesc(s[1..], key, lt);
      var r := Insert(s[0], tail, key, lt);
      assert s == [s[0]] + s[1..];
      assert |r| == |s| by {
        assert |multiset(r)| == |multiset(s)|;
      }
      assert StrictTotalOrder(lt) ==> NonIncreasing(r, key, lt) by {
        if StrictTotalOrder(lt) {
          InsertNonIncreasing(s[0], tail, key, lt);
        }
      }
      assert StrictTotalOrder(lt) ==> forall k :: WithKey(r, key, k) == WithKey(s, key, k) by {
        if StrictTotalOrder(lt) {
          forall k ensures WithKey(r, key, k) == WithKey(s, key, k) {
            InsertWithKey(s[0], tail, key, lt, k);
          }
        }
      }
      r
  }

  /** No value appears twice. */
  predicate Distinct<T(==)>(s: seq<T>) {
    forall i, j :: 0 <= i < j < |s| ==> s[i] != s[j]
  }

  lemma {:induction false} DistinctAtMostOnce<T>(s: seq<T>, x: T)
    requires Distinct(s)
    ensures multiset(s)[x] <= 1
  {
    if s != [] {
      assert s == [s[0]] + s[1..];
      DistinctAtMostOnce(s[1..], x);
      if s[0] == x {
        assert x !in s[1..];
      }
    }
  }

  lemma RepeatedTwice<T>(s: seq<T>, i: nat, j: nat)
    requires i < j < |s| && s[i] == s[j]
    ensures multiset(s)[s[i]] >= 2
  {
    assert s == s[..j] + [s[j]] + s[j + 1..];
    assert s[i] in multiset(s[..j]);
  }

  /** A permutation of a sequence without repetitions has none either. */
  lemma DistinctPermutation<T>(a: seq<T>, b: seq<T>)
    requires multiset(a) == multiset(b) && Distinct(b)
    ensures Distinct(a)
  {
    forall i, j | 0 <= i < j < |a| ensures a[i] != a[j] {
      if a[i] == a[j] {
        RepeatedTwice(a, i, j);
        DistinctAtMostOnce(b, a[i]);
      }
    }
  }

  /** Python `<` on integers. */
  predicate IntLt(a: int, b: int) {
    a < b
  }

  lemma IntLtIsStrictTotal()
    ensures StrictTotalOrder(IntLt)
  {
  }

  /** Python `<` on strings: lexicographic by code point, a proper prefix first. */
  predicate StrLt(a: string, b: string)
    decreases |a|
  {
    if a == [] then b != []
    else if b == [] then false
    else a[0] < b[0] || (a[0] == b[0] && StrLt(a[1..], b[1..]))
  }

  lemma {:induction false} StrLtIrreflexive(a: string)
    ensures !StrLt(a, a)
    decreases |a|
  {
    if a != [] {
      StrLtIrreflexive(a[1..]);
    }
  }

  lemma {:induction false} StrLtTransitive(a: string, b: string, c: string)
    requires StrLt(a, b) && StrLt(b, c)
    ensures StrLt(a, c)
    decreases |a|
  {
    if a != [] && a[0] == b[0] && b[0] == c[0] {
      StrLtTransitive(a[1..], b[1..], c[1..]);
    }
  }

  lemma {:induction false} StrLtTotal(a: string, b: string)
    ensures a == b || StrLt(a, b) || StrLt(b, a)
    decreases |a|
  {
    if a != [] && b != [] && a[0] == b[0] {
      StrLtTotal(a[1..], b[1..]);
      if a[1..] == b[1..] {
        assert a == [a[0]] + a[1..] && b == [b[0]] + b[1..];
      }
    }
  }

  lemma StrLtIsStrictTotal()
    ensures StrictTotalOrder(StrLt)
  {
    forall a ensures !StrLt(a, a) {
      StrLtIrreflexive(a);
    }
    forall a, b, c | StrLt(a, b) && StrLt(b, c) ensures StrLt(a, c) {
      StrLtTransitive(a, b, c);
    }
    forall a, b ensures a == b || StrLt(a, b) || StrLt(b, a) {
      StrLtTotal(a, b);
    }
  }
}
