/** Sequence operations the handlers and pages use: `Array.prototype.filter`,
    a newest-first sort, and the collection of the keys of a store that match a query. */
module Collections {

  /** No element occurs twice. */
  predicate Distinct<T(==)>(s: seq<T>) {
    forall i, j :: 0 <= i < j < |s| ==> s[i] != s[j]
  }

  /** `s.filter(keep)`: the elements that pass, in their original order. */
  function Filter<T>(s: seq<T>, keep: T -> bool): (r: seq<T>)
    ensures |r| <= |s|
    ensures forall x :: x in r ==> x in s && keep(x)
  {
    if s == [] then []
    else if keep(s[0]) then [s[0]] + Filter(s[1..], keep)
    else Filter(s[1..], keep)
  }

  /** `a` is `b` with some elements left out, the others in the same order. */
  predicate IsSubsequence<T(==)>(a: seq<T>, b: seq<T>)
    decreases |b|
  {
    if a == [] then true
    else if b == [] then false
    else if a[0] == b[0] then IsSubsequence(a[1..], b[1..])
    else IsSubsequence(a, b[1..])
  }

  /** Filtering keeps every passing element as often as it occurs and drops every other. */
  lemma {:induction false} FilterCount<T>(s: seq<T>, keep: T -> bool, x: T)
    ensures multiset(Filter(s, keep))[x] == if keep(x) then multiset(s)[x] else 0
  {
    if s != [] {
      FilterCount(s[1..], keep, x);
      assert s == [s[0]] + s[1..];
    }
  }

  /** Filtering keeps the surviving elements in their original order. */
  lemma {:induction false} FilterIsSubsequence<T>(s: seq<T>, keep: T -> bool)
    ensures IsSubsequence(Filter(s, keep), s)
  {
    if s != [] {
      FilterIsSubsequence(s[1..], keep);
      if !keep(s[0]) {
        SkipHead(Filter(s[1..], keep), s);
      }
    }
  }

  /** A subsequence of the tail is a subsequence of the whole. */
  lemma {:induction false} SkipHead<T>(a: seq<T>, b: seq<T>)
    requires b != [] && IsSubsequence(a, b[1..])
    ensures IsSubsequence(a, b)
    decreases |b|, 0
  {
    if a != [] && a[0] == b[0] {
      // IsSubsequence(a, b) reduces to IsSubsequence(a[1..], b[1..])
      SubsequenceDropFirst(a, b[1..]);
    }
  }

  /** Dropping the first element of a subsequence keeps it a subsequence. */
  lemma {:induction false} SubsequenceDropFirst<T>(a: seq<T>, b: seq<T>)
    requires a != [] && IsSubsequence(a, b)
    ensures IsSubsequence(a[1..], b)
    decreases |b|, 1
  {
    if b != [] {
      if a[0] == b[0] {
        if a[1..] != [] {
          SubsequenceDropFirst(a[1..], b[1..]);
        }
        SkipHead(a[1..], b);
      } else {
        SubsequenceDropFirst(a, b[1..]);
        SkipHead(a[1..], b);
      }
    }
  }

  /** `s` with every occurrence of `x` removed, the others kept in order
      (`filter(y => y !== x)`, and the store's `$pull`). */
  function Without<T(==,!new)>(s: seq<T>, x: T): (r: seq<T>)
    ensures x !in r
    ensures forall y :: y != x ==> multiset(r)[y] == multiset(s)[y]
    ensures IsSubsequence(r, s)
  {
    var r := Filter(s, (y: T) => y != x);
    forall y | y != x
      ensures multiset(r)[y] == multiset(s)[y]
    {
      FilterCount(s, (y: T) => y != x, y);
    }
    FilterIsSubsequence(s, (y: T) => y != x);
    r
  }

  /** Removing an element that is not there changes nothing. */
  lemma WithoutAbsent<T(!new)>(s: seq<T>, x: T)
    requires x !in s
    ensures Without(s, x) == s
  {
    FilterAll(s, (y: T) => y != x);
  }

  /** Removing an element that was just appended is removing it from the front part. */
  lemma {:induction false} WithoutAppended<T(!new)>(s: seq<T>, x: T)
    ensures Without(s + [x], x) == Without(s, x)
  {
    FilterSkipsLast(s, x, (y: T) => y != x);
  }

  lemma {:induction false} FilterSkipsLast<T>(s: seq<T>, x: T, keep: T -> bool)
    requires !keep(x)
    ensures Filter(s + [x], keep) == Filter(s, keep)
  {
    if s == [] {
      assert [x][1..] == [];
    } else {
      assert (s + [x])[1..] == s[1..] + [x];
      FilterSkipsLast(s[1..], x, keep);
    }
  }

  /** Removing twice is removing once. */
  lemma WithoutIdempotent<T(!new)>(s: seq<T>, x: T)
    ensures Without(Without(s, x), x) == Without(s, x)
  {
    WithoutAbsent(Without(s, x), x);
  }

  /** Removing an element from a distinct sequence leaves it distinct. */
  lemma WithoutDistinct<T(!new)>(s: seq<T>, x: T)
    requires Distinct(s)
    ensures Distinct(Without(s, x))
  {
    FilterDistinct(s, (y: T) => y != x);
  }

  /** A filter that lets every element through changes nothing. */
  lemma {:induction false} FilterAll<T>(s: seq<T>, keep: T -> bool)
    requires forall x :: x in s ==> keep(x)
    ensures Filter(s, keep) == s
  {
    if s != [] {
      FilterAll(s[1..], keep);
      assert s == [s[0]] + s[1..];
    }
  }

  /** Filtering a distinct sequence leaves it distinct. */
  lemma FilterDistinct<T>(s: seq<T>, keep: T -> bool)
    requires Distinct(s)
    ensures Distinct(Filter(s, keep))
  {
    DistinctByCount(s);
    forall x
      ensures multiset(Filter(s, keep))[x] <= 1
    {
      FilterCount(s, keep, x);
    }
    DistinctByCount(Filter(s, keep));
  }

  /** Distinctness is "every element occurs at most once". */
  lemma {:induction false} DistinctByCount<T>(s: seq<T>)
    ensures Distinct(s) <==> forall x :: multiset(s)[x] <= 1
  {
    if s != [] {
      DistinctByCount(s[1..]);
      assert s == [s[0]] + s[1..];
      if Distinct(s) {
        assert forall j :: 0 < j < |s| ==> s[0] != s[j];
        assert s[0] !in s[1..];
      }
      if forall x :: multiset(s)[x] <= 1 {
        assert multiset(s)[s[0]] == multiset(s[1..])[s[0]] + 1;
        assert forall x :: multiset(s[1..])[x] <= multiset(s)[x];
        forall j | 0 < j < |s|
          ensures s[0] != s[j]
        {
          assert s[j] in s[1..];
        }
      }
    }
  }

  /** Rearranging a distinct sequence leaves it distinct. */
  lemma DistinctPermutation<T>(a: seq<T>, b: seq<T>)
    requires multiset(a) == multiset(b) && Distinct(a)
    ensures Distinct(b)
  {
    DistinctByCount(a);
    DistinctByCount(b);
  }

  /** Newest first: the keys never increase from left to right. */
  predicate SortedDesc<T>(s: seq<T>, key: T -> int) {
    forall i, j :: 0 <= i < j < |s| ==> key(s[i]) >= key(s[j])
  }

  /** Put `x` in front of the first element whose key is not greater than its own. */
  function InsertDesc<T>(x: T, s: seq<T>, key: T -> int): (r: seq<T>)
    ensures multiset(r) == multiset(s) + multiset{x}
    ensures SortedDesc(s, key) ==> SortedDesc(r, key)
  {
    if s == [] || key(x) >= key(s[0]) then [x] + s
    else
      var rest := InsertDesc(x, s[1..], key);
      assert s == [s[0]] + s[1..];
      assert forall y :: y in rest ==> y == x || y in s[1..] by {
        forall y | y in rest ensures y == x || y in s[1..] {
          assert y in multiset(rest);
        }
      }
      InsertKeepsOrder(x, s, rest, key);
      [s[0]] + rest
  }

  /** The step of `InsertDesc` that puts the head back in front. */
  lemma InsertKeepsOrder<T>(x: T, s: seq<T>, rest: seq<T>, key: T -> int)
    requires s != [] && key(x) < key(s[0])
    requires forall y :: y in rest ==> y == x || y in s[1..]
    requires SortedDesc(s[1..], key) ==> SortedDesc(rest, key)
    ensures SortedDesc(s, key) ==> SortedDesc([s[0]] + rest, key)
  {
    if SortedDesc(s, key) {
      var r := [s[0]] + rest;
      forall j | 0 < j < |r|
        ensures key(r[0]) >= key(r[j])
      {
        assert r[j] == rest[j - 1] && rest[j - 1] in rest;
        if r[j] != x {
          var k :| 0 <= k < |s[1..]| && s[1..][k] == r[j];
          assert s[k + 1] == r[j];
        }
      }
      assert SortedDesc(s[1..], key);
      forall i, j | 0 <= i < j < |r|
        ensures key(r[i]) >= key(r[j])
      {
        if i > 0 {
          assert r[i] == rest[i - 1] && r[j] == rest[j - 1];
        }
      }
    }
  }

  /** The newest-first order of `sort((a, b) => key(b) - key(a))`. */
  function SortDesc<T>(s: seq<T>, key: T -> int): (r: seq<T>)
    ensures multiset(r) == multiset(s)
    ensures SortedDesc(r, key)
  {
    if s == [] then []
    else
      assert s == [s[0]] + s[1..];
      InsertDesc(s[0], SortDesc(s[1..], key), key)
  }

  /** No two keys of `m` file the same document. */
  predicate Injective<K, V(==)>(m: map<K, V>) {
    forall a, b :: a in m && b in m && a != b ==> m[a] != m[b]
  }

  /** `Model.find(filter).sort({ createdAt: -1 })`: exactly the stored documents
      that pass `keep`, each once, newest first. */
  method ListWhere<K, V(==)>(m: map<K, V>, keep: V -> bool, key: V -> int) returns (r: seq<V>)
    requires Injective(m)
    ensures forall x :: x in r <==> x in m.Values && keep(x)
    ensures Distinct(r)
    ensures SortedDesc(r, key)
  {
    var ks := KeysWhere(m, keep);
    var docs := seq(|ks|, i requires 0 <= i < |ks| => m[ks[i]]);
    forall x | x in m.Values && keep(x)
      ensures x in docs
    {
      var k :| k in m && m[k] == x;
      var i :| 0 <= i < |ks| && ks[i] == k;
      assert docs[i] == x;
    }
    r := SortDesc(docs, key);
    assert forall x :: x in r <==> x in multiset(docs);
    DistinctPermutation(docs, r);
  }

  /** The keys of `m` whose documents pass `keep`: `Model.find(filter)` on a collection. */
  method KeysWhere<K, V>(m: map<K, V>, keep: V -> bool) returns (ks: seq<K>)
    ensures Distinct(ks)
    ensures forall i :: 0 <= i < |ks| ==> ks[i] in m && keep(m[ks[i]])
    ensures forall k :: k in m && keep(m[k]) ==> k in ks
  {
    ks := [];
    var rest := m.Keys;
    while rest != {}
      invariant rest <= m.Keys
      invariant Distinct(ks)
      invariant forall i :: 0 <= i < |ks| ==> ks[i] in m && keep(m[ks[i]]) && ks[i] !in rest
      invariant forall k :: k in m && keep(m[k]) && k !in rest ==> k in ks
      decreases |rest|
    {
      var k :| k in rest;
      if keep(m[k]) {
        ks := ks + [k];
      }
      rest := rest - {k};
    }
  }
}
