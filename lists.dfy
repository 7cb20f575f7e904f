/**
 * The array operations the chat client uses on its message and chat lists:
 * `filter`, `findIndex`, and the idiom `filter((x, i, self) => i === self.findIndex(y => y.id === x.id))`
 * that keeps the first element of each id.
 */
module Lists {

  /** `a` is obtained from `b` by deleting elements, without reordering. */
  ghost predicate IsSubsequence<T>(a: seq<T>, b: seq<T>)
    decreases |b|
  {
    a == [] || (b != [] && ((a[0] == b[0] && IsSubsequence(a[1..], b[1..])) || IsSubsequence(a, b[1..])))
  }

  /** `s.filter(p)`: every occurrence of an element satisfying `p`, in order, and nothing else. */
  function Filter<T(==,!new)>(s: seq<T>, p: T -> bool): (r: seq<T>)
    ensures forall x {:trigger multiset(r)[x]} :: multiset(r)[x] == if p(x) then multiset(s)[x] else 0
    ensures forall x :: x in r <==> x in s && p(x)
    ensures IsSubsequence(r, s)
    decreases |s|
  {
    if s == [] then []
    else
      var rest := Filter(s[1..], p);
      assert s == [s[0]] + s[1..];
      assert multiset(s) == multiset([s[0]]) + multiset(s[1..]);
      if p(s[0]) then
        assert ([s[0]] + rest)[1..] == rest;
        [s[0]] + rest
      else rest
  }

  /** Filtering a concatenation filters each part. */
  lemma {:induction false} FilterAppend<T(!new)>(a: seq<T>, b: seq<T>, p: T -> bool)
    ensures Filter(a + b, p) == Filter(a, p) + Filter(b, p)
    decreases |a|
  {
    if a == [] {
      assert a + b == b;
    } else {
      FilterAppend(a[1..], b, p);
      assert (a + b)[0] == a[0];
      assert (a + b)[1..] == a[1..] + b;
    }
  }

  /** Filtering a list whose elements all pass leaves it as it is. */
  lemma {:induction false} FilterAll<T(!new)>(s: seq<T>, p: T -> bool)
    requires forall i :: 0 <= i < |s| ==> p(s[i])
    ensures Filter(s, p) == s
    decreases |s|
  {
    if s != [] {
      FilterAll(s[1..], p);
    }
  }

  /** Filtering a list none of whose elements pass leaves nothing. */
  lemma {:induction false} FilterNone<T(!new)>(s: seq<T>, p: T -> bool)
    requires forall i :: 0 <= i < |s| ==> !p(s[i])
    ensures Filter(s, p) == []
    decreases |s|
  {
    if s != [] {
      FilterNone(s[1..], p);
    }
  }

  /** Every element of a filtered list comes from the list. */
  lemma FilterMembers<T(!new)>(s: seq<T>, p: T -> bool)
    ensures forall i :: 0 <= i < |Filter(s, p)| ==> exists j :: 0 <= j < |s| && s[j] == Filter(s, p)[i]
  {
    var r := Filter(s, p);
    forall i | 0 <= i < |r| ensures exists j :: 0 <= j < |s| && s[j] == r[i] {
      assert r[i] in r;
    }
  }

  /** A property every element of `s` has, every kept element has. */
  lemma FilterKeeps<T(!new)>(s: seq<T>, p: T -> bool, q: T -> bool)
    requires forall i :: 0 <= i < |s| ==> q(s[i])
    ensures forall i :: 0 <= i < |Filter(s, p)| ==> q(Filter(s, p)[i])
  {
    var r := Filter(s, p);
    forall i | 0 <= i < |r| ensures q(r[i]) {
      assert r[i] in r;
      var j :| 0 <= j < |s| && s[j] == r[i];
    }
  }

  /** `s.map(f)`: one result per element, in order. */
  function Map<T, U>(s: seq<T>, f: T -> U): (r: seq<U>)
    ensures |r| == |s|
    ensures forall i :: 0 <= i < |s| ==> r[i] == f(s[i])
  {
    seq(|s|, i requires 0 <= i < |s| => f(s[i]))
  }

  /** Mapping a two-element list maps each element. */
  lemma MapTwo<T, U>(a: T, b: T, f: T -> U)
    ensures Map([a, b], f) == [f(a), f(b)]
  {
  }

  /** Filtering one more element adds it when it passes the test, and nothing otherwise. */
  lemma FilterSnoc<T(!new)>(s: seq<T>, i: int, p: T -> bool)
    requires 0 <= i < |s|
    ensures Filter(s[..i + 1], p) == Filter(s[..i], p) + if p(s[i]) then [s[i]] else []
  {
    assert s[..i + 1] == s[..i] + [s[i]];
    FilterAppend(s[..i], [s[i]], p);
    assert [s[i]][1..] == [];
  }

  /** An element that fails the test can be dropped before filtering. */
  lemma FilterSkip<T(!new)>(before: seq<T>, x: T, after: seq<T>, p: T -> bool)
    requires !p(x)
    ensures Filter(before + [x] + after, p) == Filter(before + after, p)
  {
    FilterAppend(before + [x], after, p);
    FilterAppend(before, [x], p);
    FilterAppend(before, after, p);
    assert [x][1..] == [];
  }

  /** Filtering never lengthens a list. */
  lemma {:induction false} FilterLength<T(!new)>(s: seq<T>, p: T -> bool)
    ensures |Filter(s, p)| <= |s|
    decreases |s|
  {
    if s != [] {
      FilterLength(s[1..], p);
    }
  }

  /** Filtering twice with the same test is filtering once. */
  lemma FilterIdempotent<T(!new)>(s: seq<T>, p: T -> bool)
    ensures Filter(Filter(s, p), p) == Filter(s, p)
  {
    var r := Filter(s, p);
    forall i | 0 <= i < |r| ensures p(r[i]) {
      assert r[i] in r;
    }
    FilterAll(r, p);
  }

  /** `s.findIndex(x => key(x) === k)`: the first position holding key `k`, or -1. */
  function FindIndex<T, K(==)>(s: seq<T>, key: T -> K, k: K): (i: int)
    ensures -1 <= i < |s|
    ensures 0 <= i ==> key(s[i]) == k && forall j :: 0 <= j < i ==> key(s[j]) != k
    ensures i == -1 <==> forall j :: 0 <= j < |s| ==> key(s[j]) != k
    decreases |s|
  {
    if s == [] then -1
    else if key(s[0]) == k then 0
    else
      var i := FindIndex(s[1..], key, k);
      if i < 0 then -1 else i + 1
  }

  /** In a concatenation, a key found in the first part is found there. */
  lemma FindIndexAppendFront<T, K>(a: seq<T>, b: seq<T>, key: T -> K, k: K)
    requires 0 <= FindIndex(a, key, k)
    ensures FindIndex(a + b, key, k) == FindIndex(a, key, k)
  {
    var i := FindIndex(a, key, k);
    var r := FindIndex(a + b, key, k);
    assert (a + b)[i] == a[i];
    assert 0 <= r <= i;
    assert (a + b)[r] == a[r];
  }

  /** In a concatenation, a key missing from the first part is looked up in the second, shifted past the first. */
  lemma FindIndexAppendBack<T, K>(a: seq<T>, b: seq<T>, key: T -> K, k: K)
    requires FindIndex(a, key, k) == -1
    ensures FindIndex(a + b, key, k) == if FindIndex(b, key, k) < 0 then -1 else |a| + FindIndex(b, key, k)
  {
    var i := FindIndex(b, key, k);
    var r := FindIndex(a + b, key, k);
    if 0 <= i {
      assert (a + b)[|a| + i] == b[i];
      assert forall j :: 0 <= j < |a| ==> (a + b)[j] == a[j];
      assert (a + b)[r] == b[r - |a|];
    } else {
      forall j | 0 <= j < |a + b| ensures key((a + b)[j]) != k {
        if j < |a| {
          assert (a + b)[j] == a[j];
        } else {
          assert (a + b)[j] == b[j - |a|];
        }
      }
    }
  }

  /** The filter callback, applied from position `n` on: keep `s[i]` iff `i` is where its key first occurs. */
  function KeepFirstFrom<T, K(==)>(s: seq<T>, key: T -> K, n: nat): seq<T>
    requires n <= |s|
    decreases |s| - n
  {
    if n == |s| then []
    else (if FindIndex(s, key, key(s[n])) == n then [s[n]] else []) + KeepFirstFrom(s, key, n + 1)
  }

  /** Every kept element sits at the first occurrence of its key, at or after `n`. */
  lemma {:induction false} KeepFirstFromSound<T, K>(s: seq<T>, key: T -> K, n: nat)
    requires n <= |s|
    ensures forall m :: 0 <= m < |KeepFirstFrom(s, key, n)| ==>
              n <= FindIndex(s, key, key(KeepFirstFrom(s, key, n)[m]))
              && s[FindIndex(s, key, key(KeepFirstFrom(s, key, n)[m]))] == KeepFirstFrom(s, key, n)[m]
    decreases |s| - n
  {
    if n < |s| {
      KeepFirstFromSound(s, key, n + 1);
      var rest := KeepFirstFrom(s, key, n + 1);
      if FindIndex(s, key, key(s[n])) == n {
        var r := [s[n]] + rest;
        assert KeepFirstFrom(s, key, n) == r;
        forall m | 0 <= m < |r|
          ensures n <= FindIndex(s, key, key(r[m])) && s[FindIndex(s, key, key(r[m]))] == r[m]
        {
          if m > 0 {
            assert r[m] == rest[m - 1];
          }
        }
      } else {
        assert KeepFirstFrom(s, key, n) == rest;
      }
    }
  }

  /** Kept elements appear in the order of their first occurrences. */
  lemma {:induction false} KeepFirstFromOrdered<T, K>(s: seq<T>, key: T -> K, n: nat)
    requires n <= |s|
    ensures forall m1, m2 :: 0 <= m1 < m2 < |KeepFirstFrom(s, key, n)| ==>
              FindIndex(s, key, key(KeepFirstFrom(s, key, n)[m1])) < FindIndex(s, key, key(KeepFirstFrom(s, key, n)[m2]))
    decreases |s| - n
  {
    if n < |s| {
      KeepFirstFromOrdered(s, key, n + 1);
      KeepFirstFromSound(s, key, n + 1);
      var rest := KeepFirstFrom(s, key, n + 1);
      if FindIndex(s, key, key(s[n])) == n {
        var r := [s[n]] + rest;
        assert KeepFirstFrom(s, key, n) == r;
        forall m1, m2 | 0 <= m1 < m2 < |r|
          ensures FindIndex(s, key, key(r[m1])) < FindIndex(s, key, key(r[m2]))
        {
          assert r[m2] == rest[m2 - 1];
          assert n + 1 <= FindIndex(s, key, key(rest[m2 - 1]));
          if m1 > 0 {
            assert r[m1] == rest[m1 - 1];
          }
        }
      } else {
        assert KeepFirstFrom(s, key, n) == rest;
      }
    }
  }

  /** Every first occurrence at or after `n` is kept. */
  lemma {:induction false} KeepFirstFromComplete<T, K>(s: seq<T>, key: T -> K, n: nat)
    requires n <= |s|
    ensures forall i :: n <= i < |s| && FindIndex(s, key, key(s[i])) == i ==> s[i] in KeepFirstFrom(s, key, n)
    decreases |s| - n
  {
    if n < |s| {
      KeepFirstFromComplete(s, key, n + 1);
    }
  }

  /**
   * Deduplication by key keeping first occurrences. The result has pairwise distinct keys, every key of `s`
   * appears in it, each element is the first element of `s` with its key, and the elements appear in the
   * order of those first occurrences. These four facts determine the result.
   */
  function UniqueBy<T, K(==)>(s: seq<T>, key: T -> K): (r: seq<T>)
    ensures forall i, j :: 0 <= i < j < |r| ==> key(r[i]) != key(r[j])
    ensures forall j :: 0 <= j < |s| ==> exists i :: 0 <= i < |r| && key(r[i]) == key(s[j])
    ensures forall i :: 0 <= i < |r| ==>
              0 <= FindIndex(s, key, key(r[i])) && s[FindIndex(s, key, key(r[i]))] == r[i]
    ensures forall i, j :: 0 <= i < j < |r| ==> FindIndex(s, key, key(r[i])) < FindIndex(s, key, key(r[j]))
    ensures |r| <= |s|
  {
    KeepFirstFromSound(s, key, 0);
    KeepFirstFromOrdered(s, key, 0);
    KeepFirstFromComplete(s, key, 0);
    var r := KeepFirstFrom(s, key, 0);
    forall j | 0 <= j < |s| ensures exists i :: 0 <= i < |r| && key(r[i]) == key(s[j]) {
      var f := FindIndex(s, key, key(s[j]));
      assert FindIndex(s, key, key(s[f])) == f;
      var i :| 0 <= i < |r| && r[i] == s[f];
    }
    KeepFirstLength(s, key, 0);
    r
  }

  lemma {:induction false} KeepFirstLength<T, K>(s: seq<T>, key: T -> K, n: nat)
    requires n <= |s|
    ensures |KeepFirstFrom(s, key, n)| <= |s| - n
    decreases |s| - n
  {
    if n < |s| {
      KeepFirstLength(s, key, n + 1);
      var head := if FindIndex(s, key, key(s[n])) == n then [s[n]] else [];
      assert KeepFirstFrom(s, key, n) == head + KeepFirstFrom(s, key, n + 1);
    }
  }

  /** Keys are pairwise distinct. */
  ghost predicate DistinctBy<T, K>(s: seq<T>, key: T -> K)
  {
    forall i, j :: 0 <= i < j < |s| ==> key(s[i]) != key(s[j])
  }

  /** A list whose keys are already distinct is left unchanged. */
  lemma {:induction false} UniqueByDistinct<T, K>(s: seq<T>, key: T -> K)
    requires DistinctBy(s, key)
    ensures UniqueBy(s, key) == s
  {
    forall i | 0 <= i < |s| ensures FindIndex(s, key, key(s[i])) == i {
      var f := FindIndex(s, key, key(s[i]));
      assert f <= i;
    }
    KeepAllFrom(s, key, 0);
  }

  lemma SliceCons<T>(s: seq<T>, n: nat)
    requires n < |s|
    ensures s[n..] == [s[n]] + s[n + 1..]
  {
  }

  /** A first occurrence at `n` is kept, ahead of what is kept after it. */
  lemma KeepFirstFromHead<T, K>(s: seq<T>, key: T -> K, n: nat)
    requires n < |s| && FindIndex(s, key, key(s[n])) == n
    ensures KeepFirstFrom(s, key, n) == [s[n]] + KeepFirstFrom(s, key, n + 1)
  {
  }

  lemma {:induction false} KeepAllFrom<T, K>(s: seq<T>, key: T -> K, n: nat)
    requires n <= |s|
    requires forall i :: 0 <= i < |s| ==> FindIndex(s, key, key(s[i])) == i
    ensures KeepFirstFrom(s, key, n) == s[n..]
    decreases |s| - n
  {
    if n < |s| {
      KeepAllFrom(s, key, n + 1);
      KeepFirstFromHead(s, key, n);
      SliceCons(s, n);
    }
  }

  /** Deduplicating twice is deduplicating once. */
  lemma UniqueByIdempotent<T, K>(s: seq<T>, key: T -> K)
    ensures UniqueBy(UniqueBy(s, key), key) == UniqueBy(s, key)
  {
    UniqueByDistinct(UniqueBy(s, key), key);
  }
}
