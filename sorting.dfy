/** `Array.prototype.sort` with a comparator, which ECMAScript requires to
    be stable, and the insertion-ordered bucketing of a `Map` whose values
    are arrays that entries are pushed onto. */
module Sorting {
  import opened Seqs

  /** `le(a, b)` holds when the comparator puts `a` no later than `b`
      (`cmp(a, b) <= 0`); a consistent comparator makes it total and
      transitive. */
  ghost predicate TotalPreorder<T(!new)>(le: (T, T) -> bool) {
    (forall a, b :: le(a, b) || le(b, a))
    && (forall a, b, c :: le(a, b) && le(b, c) ==> le(a, c))
  }

  /** `localeCompare` as a comparator on names: `lc(a, b) <= 0` when `a`
      may precede `b`. A collation makes that a total preorder. */
  ghost predicate Collation(lc: (string, string) -> int) {
    TotalPreorder((a: string, b: string) => lc(a, b) <= 0)
  }

  predicate Sorted<T>(s: seq<T>, le: (T, T) -> bool) {
    forall i, j :: 0 <= i < j < |s| ==> le(s[i], s[j])
  }

  /** Puts `x` after the last element that may precede it. */
  function Insert<T>(x: T, s: seq<T>, le: (T, T) -> bool): seq<T>
  {
    if s == [] then [x]
    else if le(Last(s), x) then s + [x]
    else Insert(x, s[..|s| - 1], le) + [Last(s)]
  }

  /** The stable sort of `xs` under `le`. */
  function SortBy<T>(xs: seq<T>, le: (T, T) -> bool): seq<T>
  {
    if xs == [] then [] else Insert(Last(xs), SortBy(xs[..|xs| - 1], le), le)
  }

  lemma {:induction false} InsertPerm<T>(x: T, s: seq<T>, le: (T, T) -> bool)
    ensures multiset(Insert(x, s, le)) == multiset(s) + multiset{x}
  {
    if s != [] && !le(Last(s), x) {
      InsertPerm(x, s[..|s| - 1], le);
      FrontLast(s);
    }
  }

  lemma {:induction false} InsertSorted<T(!new)>(x: T, s: seq<T>, le: (T, T) -> bool)
    requires TotalPreorder(le) && Sorted(s, le)
    ensures Sorted(Insert(x, s, le), le)
  {
    if s == [] {
    } else {
      var f, l := s[..|s| - 1], Last(s);
      if le(l, x) {
        forall i | 0 <= i < |s|
          ensures le(s[i], x)
        {
          if i < |s| - 1 {
            assert le(s[i], l);
          }
        }
        SortedSnoc(s, x, le);
      } else {
        assert Sorted(f, le);
        InsertSorted(x, f, le);
        forall k | 0 <= k < |f|
          ensures le(f[k], l)
        {
          assert s[k] == f[k];
        }
        InsertBounded(x, f, l, le);
        SortedSnoc(Insert(x, f, le), l, le);
      }
    }
  }

  /** An upper bound of `x` and of every element of `s` bounds every
      element after the insertion. */
  lemma {:induction false} InsertBounded<T>(x: T, s: seq<T>, u: T, le: (T, T) -> bool)
    requires le(x, u) && forall k :: 0 <= k < |s| ==> le(s[k], u)
    ensures forall i :: 0 <= i < |Insert(x, s, le)| ==> le(Insert(x, s, le)[i], u)
  {
    if s != [] && !le(Last(s), x) {
      var f := s[..|s| - 1];
      forall k | 0 <= k < |f|
        ensures le(f[k], u)
      {
        assert s[k] == f[k];
      }
      InsertBounded(x, f, u, le);
    }
  }

  lemma SortedSnoc<T>(s: seq<T>, x: T, le: (T, T) -> bool)
    requires Sorted(s, le) && forall i :: 0 <= i < |s| ==> le(s[i], x)
    ensures Sorted(s + [x], le)
  {
    var t := s + [x];
    forall i, j | 0 <= i < j < |t|
      ensures le(t[i], t[j])
    {
      if j < |s| {
        assert t[i] == s[i] && t[j] == s[j];
      } else {
        assert t[i] == s[i] && t[j] == x;
      }
    }
  }

  /** Whatever the comparator, the sort only reorders its input. */
  lemma {:induction false} SortByPerm<T>(xs: seq<T>, le: (T, T) -> bool)
    ensures multiset(SortBy(xs, le)) == multiset(xs)
  {
    if xs != [] {
      var f := xs[..|xs| - 1];
      SortByPerm(f, le);
      InsertPerm(Last(xs), SortBy(f, le), le);
      FrontLast(xs);
    }
  }

  /** The sort yields a sorted permutation of its input. */
  lemma {:induction false} SortBySpec<T(!new)>(xs: seq<T>, le: (T, T) -> bool)
    requires TotalPreorder(le)
    ensures Sorted(SortBy(xs, le), le)
    ensures multiset(SortBy(xs, le)) == multiset(xs)
  {
    SortByPerm(xs, le);
    if xs != [] {
      var f := xs[..|xs| - 1];
      SortBySpec(f, le);
      InsertSorted(Last(xs), SortBy(f, le), le);
    }
  }

  /** No element occurs twice. */
  predicate Distinct<T(==)>(s: seq<T>) {
    forall i, j :: 0 <= i < j < |s| ==> s[i] != s[j]
  }

  lemma {:induction false} DistinctOnce<T>(s: seq<T>, x: T)
    requires Distinct(s)
    ensures multiset(s)[x] <= 1
  {
    if s != [] {
      var f := s[..|s| - 1];
      DistinctOnce(f, x);
      FrontLast(s);
      forall k | 0 <= k < |f|
        ensures f[k] != Last(s)
      {
        assert f[k] == s[k];
      }
    }
  }

  /** A permutation of a sequence without repeats has none either. */
  lemma PermDistinct<T>(s: seq<T>, t: seq<T>)
    requires Distinct(s) && multiset(t) == multiset(s)
    ensures Distinct(t)
  {
    forall i, j | 0 <= i < j < |t|
      ensures t[i] != t[j]
    {
      DistinctOnce(s, t[j]);
      assert t == t[..j] + [t[j]] + t[j + 1..];
      assert multiset(t)[t[j]] == multiset(t[..j])[t[j]] + 1 + multiset(t[j + 1..])[t[j]];
      assert t[j] !in t[..j];
      assert t[i] in t[..j];
    }
  }

  /** `a` and `b` tie: neither comes strictly before the other. */
  predicate Tie<T>(a: T, b: T, le: (T, T) -> bool) {
    le(a, b) && le(b, a)
  }

  /** The elements of `s` that tie with `p`, in their order in `s`. */
  function TiesWith<T>(s: seq<T>, p: T, le: (T, T) -> bool): seq<T>
  {
    if s == [] then []
    else TiesWith(s[..|s| - 1], p, le) + (if Tie(Last(s), p, le) then [Last(s)] else [])
  }

  lemma TiesWithSnoc<T>(s: seq<T>, x: T, p: T, le: (T, T) -> bool)
    ensures TiesWith(s + [x], p, le) == TiesWith(s, p, le) + (if Tie(x, p, le) then [x] else [])
  {
    assert (s + [x])[..|s|] == s;
  }

  lemma {:induction false} InsertTies<T(!new)>(x: T, s: seq<T>, p: T, le: (T, T) -> bool)
    requires TotalPreorder(le)
    ensures TiesWith(Insert(x, s, le), p, le) == TiesWith(s, p, le) + (if Tie(x, p, le) then [x] else [])
  {
    if s == [] {
      assert [x] == [] + [x];
      TiesWithSnoc([], x, p, le);
    } else if le(Last(s), x) {
      TiesWithSnoc(s, x, p, le);
    } else {
      var f, l := s[..|s| - 1], Last(s);
      InsertTies(x, f, p, le);
      TiesWithSnoc(Insert(x, f, le), l, p, le);
      assert !(Tie(x, p, le) && Tie(l, p, le));
      var tx: seq<T> := if Tie(x, p, le) then [x] else [];
      var tl: seq<T> := if Tie(l, p, le) then [l] else [];
      AppendAssoc(TiesWith(f, p, le), tx, tl);
      AppendAssoc(TiesWith(f, p, le), tl, tx);
    }
  }

  /** Stability: elements that tie keep their input order. */
  lemma {:induction false} SortByStable<T(!new)>(xs: seq<T>, p: T, le: (T, T) -> bool)
    requires TotalPreorder(le)
    ensures TiesWith(SortBy(xs, le), p, le) == TiesWith(xs, p, le)
  {
    if xs != [] {
      var f := xs[..|xs| - 1];
      SortByStable(f, p, le);
      InsertTies(Last(xs), SortBy(f, le), p, le);
    }
  }

  /** Sorting what is already sorted changes nothing. */
  lemma {:induction false} SortBySorted<T(!new)>(xs: seq<T>, le: (T, T) -> bool)
    requires Sorted(xs, le)
    ensures SortBy(xs, le) == xs
  {
    if xs != [] {
      var f := xs[..|xs| - 1];
      SortBySorted(f, le);
      FrontLast(xs);
      if f != [] {
        assert Last(f) == xs[|xs| - 2];
      }
    }
  }

  /** The keys of `xs` in first-occurrence order: the entry order of a Map
      that is given a key the first time it is seen. */
  function KeysInOrder<T, K(==)>(xs: seq<T>, key: T -> K): seq<K>
  {
    if xs == [] then []
    else
      var ks := KeysInOrder(xs[..|xs| - 1], key);
      if key(Last(xs)) in ks then ks else ks + [key(Last(xs))]
  }

  /** The elements of `xs` with key `k`, in their order in `xs`. */
  function Members<T, K(==)>(xs: seq<T>, k: K, key: T -> K): seq<T>
  {
    if xs == [] then []
    else Members(xs[..|xs| - 1], k, key) + (if key(Last(xs)) == k then [Last(xs)] else [])
  }

  lemma MembersIn<T, K>(xs: seq<T>, k: K, key: T -> K, i: nat)
    requires i < |Members(xs, k, key)|
    ensures Members(xs, k, key)[i] in xs
  {
    MembersSpec(xs, k, key);
    var m := Members(xs, k, key);
    assert m[i] in m;
  }

  /** Keeping the elements with one key keeps their order. */
  lemma {:induction false} MembersSorted<T, K>(xs: seq<T>, k: K, key: T -> K, le: (T, T) -> bool)
    requires Sorted(xs, le)
    ensures Sorted(Members(xs, k, key), le)
  {
    if xs != [] {
      var f := xs[..|xs| - 1];
      assert Sorted(f, le);
      MembersSorted(f, k, key, le);
      var m := Members(f, k, key);
      if key(Last(xs)) == k {
        forall i | 0 <= i < |m|
          ensures le(m[i], Last(xs))
        {
          MembersIn(f, k, key, i);
          var j :| 0 <= j < |f| && f[j] == m[i];
          assert xs[j] == f[j];
        }
      }
    }
  }

  /** Some element of `xs` has key `k`. */
  ghost predicate HasKey<T, K>(xs: seq<T>, k: K, key: T -> K) {
    exists i :: 0 <= i < |xs| && key(xs[i]) == k
  }

  lemma HasKeySnoc<T, K>(xs: seq<T>, x: T, k: K, key: T -> K)
    ensures HasKey(xs + [x], k, key) <==> HasKey(xs, k, key) || key(x) == k
  {
    var ys := xs + [x];
    if HasKey(ys, k, key) {
      var i :| 0 <= i < |ys| && key(ys[i]) == k;
      if i < |xs| {
        assert key(xs[i]) == k;
      }
    }
    if HasKey(xs, k, key) {
      var i :| 0 <= i < |xs| && key(xs[i]) == k;
      assert key(ys[i]) == k;
    }
    if key(x) == k {
      assert key(ys[|xs|]) == k;
    }
  }

  /** Each key is listed once, and exactly the keys of the elements are
      listed. */
  lemma {:induction false} KeysInOrderSpec<T, K>(xs: seq<T>, key: T -> K)
    ensures forall i, j :: 0 <= i < j < |KeysInOrder(xs, key)| ==> KeysInOrder(xs, key)[i] != KeysInOrder(xs, key)[j]
    ensures forall k :: k in KeysInOrder(xs, key) <==> HasKey(xs, k, key)
  {
    if xs != [] {
      var f, x := xs[..|xs| - 1], Last(xs);
      FrontLast(xs);
      KeysInOrderSpec(f, key);
      forall k {
        HasKeySnoc(f, x, k, key);
      }
      var kf, ks := KeysInOrder(f, key), KeysInOrder(xs, key);
      if key(x) !in kf {
        assert ks == kf + [key(x)];
        forall i, j | 0 <= i < j < |ks|
          ensures ks[i] != ks[j]
        {
          if j < |kf| {
            assert ks[i] == kf[i] && ks[j] == kf[j];
          } else {
            assert ks[i] == kf[i] && kf[i] in kf;
          }
        }
      }
    }
  }

  /** A bucket holds exactly the elements with its key, so the buckets
      partition the elements. */
  lemma {:induction false} MembersSpec<T, K>(xs: seq<T>, k: K, key: T -> K)
    ensures forall x :: x in Members(xs, k, key) <==> x in xs && key(x) == k
    ensures multiset(Members(xs, k, key)) <= multiset(xs)
  {
    if xs != [] {
      var f := xs[..|xs| - 1];
      MembersSpec(f, k, key);
      FrontLast(xs);
    }
  }

  lemma {:induction false} MembersNone<T, K>(xs: seq<T>, k: K, key: T -> K)
    requires !HasKey(xs, k, key)
    ensures Members(xs, k, key) == []
  {
    if xs != [] {
      var f, x := xs[..|xs| - 1], Last(xs);
      FrontLast(xs);
      HasKeySnoc(f, x, k, key);
      MembersNone(f, k, key);
    }
  }

  lemma KeysInOrderSnoc<T, K>(xs: seq<T>, x: T, key: T -> K)
    ensures KeysInOrder(xs + [x], key)
      == (var ks := KeysInOrder(xs, key); if key(x) in ks then ks else ks + [key(x)])
  {
    assert (xs + [x])[..|xs|] == xs;
  }

  lemma MembersSnoc<T, K>(xs: seq<T>, x: T, k: K, key: T -> K)
    ensures Members(xs + [x], k, key) == Members(xs, k, key) + (if key(x) == k then [x] else [])
  {
    assert (xs + [x])[..|xs|] == xs;
  }

  /** First-occurrence order: the keys of a prefix of `xs` are a prefix of
      the keys of `xs`, so a key first seen earlier is listed earlier. */
  lemma {:induction false} KeysInOrderPrefix<T, K>(xs: seq<T>, n: nat, key: T -> K)
    requires n <= |xs|
    ensures KeysInOrder(xs[..n], key) <= KeysInOrder(xs, key)
  {
    if n < |xs| {
      var f := xs[..|xs| - 1];
      assert f[..n] == xs[..n];
      KeysInOrderPrefix(f, n, key);
    } else {
      assert xs[..n] == xs;
    }
  }

  /** The Map filled by `if (!map.has(k)) map.set(k, []); map.get(k).push(x)`
      over `xs`: its entry order and its buckets. */
  method BucketBy<T, K(==)>(xs: seq<T>, key: T -> K) returns (order: seq<K>, buckets: map<K, seq<T>>)
    ensures order == KeysInOrder(xs, key)
    ensures forall k :: k in buckets <==> k in order
    ensures forall k :: k in buckets ==> buckets[k] == Members(xs, k, key)
  {
    order, buckets := [], map[];
    var i := 0;
    while i < |xs|
      invariant 0 <= i <= |xs|
      invariant order == KeysInOrder(xs[..i], key)
      invariant forall k :: k in buckets <==> k in order
      invariant forall k :: k in buckets ==> buckets[k] == Members(xs[..i], k, key)
    {
      var x := xs[i];
      ghost var pre := xs[..i];
      assert xs[..i + 1] == pre + [x];
      KeysInOrderSnoc(pre, x, key);
      var k := key(x);
      if k !in buckets {
        assert k !in KeysInOrder(pre, key);
        KeysInOrderSpec(pre, key);
        assert !HasKey(pre, k, key);
        MembersNone(pre, k, key);
        order := order + [k];
        buckets := buckets[k := []];
      }
      buckets := buckets[k := buckets[k] + [x]];
      forall k' | k' in buckets
        ensures buckets[k'] == Members(pre + [x], k', key)
      {
        MembersSnoc(pre, x, k', key);
      }
      i := i + 1;
    }
    assert xs[..i] == xs;
  }
}
