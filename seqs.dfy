/** Generic sequence helpers: occurrence counting, one-separator split and join. */
module Seqs {

  /** Number of occurrences of `x` in `s`. */
  function Count<T(==)>(s: seq<T>, x: T): (n: nat)
    ensures n <= |s|
    ensures n == 0 <==> x !in s
  {
    if s == [] then 0 else (if s[0] == x then 1 else 0) + Count(s[1..], x)
  }

  /** Splits `s` at every occurrence of `sep`, as String.prototype.split does
      with a one-character separator: "" gives one empty part, and a
      separator at either end gives an empty part there. */
  function Split<T(==)>(s: seq<T>, sep: T): (parts: seq<seq<T>>)
    ensures |parts| >= 1
  {
    if s == [] then [[]]
    else
      var rest := Split(s[1..], sep);
      if s[0] == sep then [[]] + rest
      else [[s[0]] + rest[0]] + rest[1..]
  }

  /** There is one part more than there are separators, and no part holds
      the separator. */
  lemma {:induction false} SplitParts<T>(s: seq<T>, sep: T)
    ensures |Split(s, sep)| == Count(s, sep) + 1
    ensures forall k :: 0 <= k < |Split(s, sep)| ==> sep !in Split(s, sep)[k]
  {
    if s != [] {
      SplitParts(s[1..], sep);
      var rest := Split(s[1..], sep);
      if s[0] != sep {
        assert forall k :: 1 <= k < |rest| ==> Split(s, sep)[k] == rest[k];
      }
    }
  }

  /** Array.prototype.join with a one-element separator. */
  function Join<T>(parts: seq<seq<T>>, sep: T): seq<T>
  {
    if parts == [] then []
    else if |parts| == 1 then parts[0]
    else parts[0] + [sep] + Join(parts[1..], sep)
  }

  function Last<T>(s: seq<T>): T
    requires s != []
  {
    s[|s| - 1]
  }

  /** A non-empty sequence is its front followed by its last element. */
  lemma FrontLast<T>(s: seq<T>)
    requires s != []
    ensures s == s[..|s| - 1] + [Last(s)]
  {
  }

  /** Some element of `f + [x]` satisfies `P` exactly when some element
      of `f` does or `x` does. */
  lemma ExistsSnoc<T>(f: seq<T>, x: T, P: T -> bool)
    ensures (exists k :: 0 <= k < |f + [x]| && P((f + [x])[k]))
      <==> (exists k :: 0 <= k < |f| && P(f[k])) || P(x)
  {
    var s := f + [x];
    if exists k :: 0 <= k < |s| && P(s[k]) {
      var k :| 0 <= k < |s| && P(s[k]);
      if k < |f| {
        assert s[k] == f[k];
      }
    }
    if exists k :: 0 <= k < |f| && P(f[k]) {
      var k :| 0 <= k < |f| && P(f[k]);
      assert s[k] == f[k];
    }
    assert s[|f|] == x;
  }

  lemma AppendAssoc<T>(a: seq<T>, b: seq<T>, c: seq<T>)
    ensures (a + b) + c == a + (b + c)
  {
  }

  /** A separator-free prefix sticks to the first part. */
  lemma {:induction false} SplitPrefix<T>(p: seq<T>, t: seq<T>, sep: T)
    requires sep !in p
    ensures Split(p + t, sep) == [p + Split(t, sep)[0]] + Split(t, sep)[1..]
  {
    if p != [] {
      assert (p + t)[1..] == p[1..] + t;
      SplitPrefix(p[1..], t, sep);
      assert [p[0]] + (p[1..] + Split(t, sep)[0]) == p + Split(t, sep)[0];
    } else {
      var q := Split(t, sep);
      assert p + t == t;
      assert p + q[0] == q[0];
      assert [q[0]] + q[1..] == q;
    }
  }

  /** Splitting undoes joining when no part holds the separator. */
  lemma {:induction false} SplitJoin<T>(parts: seq<seq<T>>, sep: T)
    requires |parts| >= 1
    requires forall k :: 0 <= k < |parts| ==> sep !in parts[k]
    ensures Split(Join(parts, sep), sep) == parts
  {
    if |parts| == 1 {
      SplitPrefix(parts[0], [], sep);
      assert parts[0] + [] == parts[0];
    } else {
      var r := Join(parts[1..], sep);
      SplitJoin(parts[1..], sep);
      assert Join(parts, sep) == parts[0] + ([sep] + r);
      SplitPrefix(parts[0], [sep] + r, sep);
      assert ([sep] + r)[1..] == r;
      assert Split([sep] + r, sep) == [[]] + Split(r, sep);
      assert parts[0] + [] == parts[0];
      assert parts == [parts[0]] + parts[1..];
    }
  }

  /** The part list after appending `x` to the input: a new empty part when
      `x` is the separator, otherwise `x` added to the last part. */
  function SnocParts<T(==)>(p: seq<seq<T>>, x: T, sep: T): seq<seq<T>>
    requires p != []
  {
    if x == sep then p + [[]] else p[..|p| - 1] + [Last(p) + [x]]
  }

  /** Appending one element to the split input either opens a new empty
      part or extends the last part. */
  lemma {:induction false} SplitSnoc<T>(s: seq<T>, x: T, sep: T)
    ensures Split(s + [x], sep) == SnocParts(Split(s, sep), x, sep)
  {
    if s == [] {
      assert s + [x] == [x];
      assert [x][1..] == [];
      if x == sep {
        assert Split([x], sep) == [[]] + [[]];
      } else {
        assert Split([x], sep) == [[x] + Split([], sep)[0]] + Split([], sep)[1..];
        assert [x] + [] == [x];
        var e: seq<seq<T>> := [[]];
        assert e[1..] == [];
        assert [[x]] + e[1..] == [[x]];
        var p: seq<seq<T>> := [[]];
        assert p[..|p| - 1] + [Last(p) + [x]] == [[x]];
      }
    } else {
      assert (s + [x])[1..] == s[1..] + [x];
      SplitSnoc(s[1..], x, sep);
      if s[0] == sep {
        SplitSnocSep(s, x, sep);
      } else {
        SplitSnocOther(s, x, sep);
      }
    }
  }

  lemma SplitSnocSep<T>(s: seq<T>, x: T, sep: T)
    requires s != [] && s[0] == sep
    requires Split(s[1..] + [x], sep) == SnocParts(Split(s[1..], sep), x, sep)
    ensures Split(s + [x], sep) == SnocParts(Split(s, sep), x, sep)
  {
    assert (s + [x])[1..] == s[1..] + [x];
    var r := Split(s[1..], sep);
    assert Split(s, sep) == [[]] + r;
    assert Split(s + [x], sep) == [[]] + SnocParts(r, x, sep);
    if x == sep {
      EmptySnocSep(r, x, sep);
    } else {
      EmptySnocOther(r, x, sep);
    }
  }

  lemma EmptySnocSep<T>(r: seq<seq<T>>, x: T, sep: T)
    requires r != [] && x == sep
    ensures [[]] + SnocParts(r, x, sep) == SnocParts([[]] + r, x, sep)
  {
    assert [[]] + (r + [[]]) == ([[]] + r) + [[]];
  }

  lemma EmptySnocOther<T>(r: seq<seq<T>>, x: T, sep: T)
    requires r != [] && x != sep
    ensures [[]] + SnocParts(r, x, sep) == SnocParts([[]] + r, x, sep)
  {
    var p := [[]] + r;
    assert p[..|p| - 1] == [[]] + r[..|r| - 1];
    assert Last(p) == Last(r);
  }

  lemma SplitSnocOther<T>(s: seq<T>, x: T, sep: T)
    requires s != [] && s[0] != sep
    requires Split(s[1..] + [x], sep) == SnocParts(Split(s[1..], sep), x, sep)
    ensures Split(s + [x], sep) == SnocParts(Split(s, sep), x, sep)
  {
    assert (s + [x])[1..] == s[1..] + [x];
    var r := Split(s[1..], sep);
    var r' := SnocParts(r, x, sep);
    assert Split(s, sep) == [[s[0]] + r[0]] + r[1..];
    assert Split(s + [x], sep) == [[s[0]] + r'[0]] + r'[1..];
    if x == sep {
      ConsSnocSep(s[0], r, x, sep);
    } else if |r| == 1 {
      ConsSnocSingle(s[0], r, x, sep);
    } else {
      ConsSnocMany(s[0], r, x, sep);
    }
  }

  lemma ConsSnocSep<T>(c: T, r: seq<seq<T>>, x: T, sep: T)
    requires r != [] && x == sep
    ensures var r' := SnocParts(r, x, sep);
      [[c] + r'[0]] + r'[1..] == SnocParts([[c] + r[0]] + r[1..], x, sep)
  {
    var r' := SnocParts(r, x, sep);
    assert r'[0] == r[0];
    assert r'[1..] == r[1..] + [[]];
  }

  lemma ConsSnocSingle<T>(c: T, r: seq<seq<T>>, x: T, sep: T)
    requires |r| == 1 && x != sep
    ensures var r' := SnocParts(r, x, sep);
      [[c] + r'[0]] + r'[1..] == SnocParts([[c] + r[0]] + r[1..], x, sep)
  {
    var r' := SnocParts(r, x, sep);
    assert r' == [r[0] + [x]];
    assert [c] + (r[0] + [x]) == ([c] + r[0]) + [x];
  }

  lemma ConsSnocMany<T>(c: T, r: seq<seq<T>>, x: T, sep: T)
    requires |r| > 1 && x != sep
    ensures var r' := SnocParts(r, x, sep);
      [[c] + r'[0]] + r'[1..] == SnocParts([[c] + r[0]] + r[1..], x, sep)
  {
    var r' := SnocParts(r, x, sep);
    var p := [[c] + r[0]] + r[1..];
    assert r'[0] == r[0];
    assert r'[1..] == r[1..|r| - 1] + [Last(r) + [x]];
    assert p[..|p| - 1] == [[c] + r[0]] + r[1..|r| - 1];
    assert Last(p) == Last(r);
  }

  /** Appending a separator opens a new, empty last part. */
  lemma SplitSnocSepar<T>(s: seq<T>, sep: T)
    ensures Split(s + [sep], sep) == Split(s, sep) + [[]]
  {
    SplitSnoc(s, sep, sep);
  }

  /** Appending anything else extends the last part and keeps the others. */
  lemma SplitSnocNonSep<T>(s: seq<T>, x: T, sep: T)
    requires x != sep
    ensures var p, q := Split(s, sep), Split(s + [x], sep);
      q[..|q| - 1] == p[..|p| - 1] && Last(q) == Last(p) + [x]
  {
    SplitSnoc(s, x, sep);
    var p := Split(s, sep);
    assert (p[..|p| - 1] + [Last(p) + [x]])[..|p| - 1] == p[..|p| - 1];
  }
}
