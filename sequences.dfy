/**
 * Operations on sequences used as relational tables: projection of a column,
 * selection by key, counting, and removing duplicates.
 */
module Sequences {

  /** No value occurs twice in `ks` (a primary-key column). */
  predicate Unique<K(==)>(ks: seq<K>) {
    forall i, j :: 0 <= i < j < |ks| ==> ks[i] != ks[j]
  }

  /** The column `f` of the rows `s`, in row order. */
  function Project<T, K>(s: seq<T>, f: T -> K): (r: seq<K>)
    ensures |r| == |s|
    ensures forall i :: 0 <= i < |s| ==> r[i] == f(s[i])
    ensures forall x :: x in s ==> f(x) in r
  {
    seq(|s|, i requires 0 <= i < |s| => f(s[i]))
  }

  lemma ProjectAppend<T, K>(a: seq<T>, b: seq<T>, f: T -> K)
    ensures Project(a + b, f) == Project(a, f) + Project(b, f)
  {
  }

  /** Number of occurrences of `k` in `ks`. */
  function CountOf<K(==)>(ks: seq<K>, k: K): (n: nat)
    ensures n <= |ks|
    ensures n > 0 <==> k in ks
  {
    if ks == [] then 0 else (if ks[0] == k then 1 else 0) + CountOf(ks[1..], k)
  }

  lemma {:induction false} CountOfAppend<K>(a: seq<K>, b: seq<K>, k: K)
    ensures CountOf(a + b, k) == CountOf(a, k) + CountOf(b, k)
  {
    if a != [] {
      assert (a + b)[1..] == a[1..] + b;
      CountOfAppend(a[1..], b, k);
    } else {
      assert a + b == b;
    }
  }

  /** A value occurs at most once in a column without duplicates. */
  lemma {:induction false} CountOfUnique<K>(ks: seq<K>, k: K)
    requires Unique(ks)
    ensures CountOf(ks, k) <= 1
  {
    if ks != [] {
      assert Unique(ks[1..]);
      CountOfUnique(ks[1..], k);
      if ks[0] == k {
        assert k !in ks[1..];
      }
    }
  }

  /** The rows of `s` whose column `f` equals `k` (WHERE f = k), in row order. */
  function Select<T(!new), K(==)>(s: seq<T>, f: T -> K, k: K): (r: seq<T>)
    ensures |r| == CountOf(Project(s, f), k)
    ensures forall x :: x in r <==> x in s && f(x) == k
  {
    if s == [] then []
    else
      assert Project(s, f)[1..] == Project(s[1..], f);
      (if f(s[0]) == k then [s[0]] else []) + Select(s[1..], f, k)
  }

  lemma {:induction false} SelectAppend<T(!new), K>(a: seq<T>, b: seq<T>, f: T -> K, k: K)
    ensures Select(a + b, f, k) == Select(a, f, k) + Select(b, f, k)
  {
    if a == [] {
      assert a + b == b;
    } else {
      assert (a + b)[1..] == a[1..] + b;
      SelectAppend(a[1..], b, f, k);
    }
  }

  /** No row has the key: the selection is empty. */
  lemma SelectAbsent<T(!new), K>(s: seq<T>, f: T -> K, k: K)
    requires forall x :: x in s ==> f(x) != k
    ensures Select(s, f, k) == []
  {
    assert k !in Project(s, f);
  }

  /** Appending one row changes the selection of its own key only. */
  lemma SelectSnoc<T(!new), K>(s: seq<T>, x: T, f: T -> K)
    ensures forall k :: Select(s + [x], f, k) == Select(s, f, k) + (if f(x) == k then [x] else [])
  {
    forall k ensures Select(s + [x], f, k) == Select(s, f, k) + (if f(x) == k then [x] else []) {
      SelectAppend(s, [x], f, k);
      assert Select([x], f, k) == (if f(x) == k then [x] else []) by {
        assert [x][1..] == [];
      }
    }
  }

  /** Selecting on a column without duplicates finds at most one row, and exactly one when the key is present. */
  lemma SelectOnKey<T(!new), K>(s: seq<T>, f: T -> K, k: K)
    requires Unique(Project(s, f))
    ensures |Select(s, f, k)| <= 1
    ensures k in Project(s, f) ==> |Select(s, f, k)| == 1
  {
    CountOfUnique(Project(s, f), k);
  }

  /** A selection keeps any column free of duplicates. */
  lemma {:induction false} SelectKeepsUnique<T(!new), K, J>(s: seq<T>, f: T -> K, k: K, g: T -> J)
    requires Unique(Project(s, g))
    ensures Unique(Project(Select(s, f, k), g))
  {
    if s != [] {
      assert Project(s[1..], g) == Project(s, g)[1..];
      SelectKeepsUnique(s[1..], f, k, g);
      var rest := Select(s[1..], f, k);
      var r := Select(s, f, k);
      if f(s[0]) == k {
        assert r == [s[0]] + rest;
        forall i, j | 0 <= i < j < |r| ensures Project(r, g)[i] != Project(r, g)[j] {
          if i == 0 {
            assert r[j] in s[1..];
            var m :| 0 <= m < |s[1..]| && s[1..][m] == r[j];
            assert Project(s, g)[0] != Project(s, g)[m + 1];
          } else {
            assert Project(rest, g)[i - 1] != Project(rest, g)[j - 1];
          }
        }
      } else {
        assert r == rest;
      }
    }
  }

  /** `ks` with every occurrence of `k` removed. */
  function Without<K(==,!new)>(ks: seq<K>, k: K): (r: seq<K>)
    ensures |r| == |ks| - CountOf(ks, k)
    ensures forall x :: x in r <==> x in ks && x != k
    ensures forall x :: x != k ==> CountOf(r, x) == CountOf(ks, x)
  {
    if ks == [] then []
    else if ks[0] == k then Without(ks[1..], k)
    else [ks[0]] + Without(ks[1..], k)
  }

  /** The distinct values of `ks`, in order of first occurrence (SELECT DISTINCT). */
  function Distinct<K(==,!new)>(ks: seq<K>): (d: seq<K>)
    ensures Unique(d)
    ensures forall x :: x in d <==> x in ks
    decreases |ks|
  {
    if ks == [] then [] else [ks[0]] + Distinct(Without(ks, ks[0]))
  }

  /** A column without duplicates has as many distinct values as rows. */
  lemma {:induction false} UniqueCardinality<K>(ks: seq<K>)
    requires Unique(ks)
    ensures |set x | x in ks| == |ks|
  {
    if ks != [] {
      assert Unique(ks[1..]);
      UniqueCardinality(ks[1..]);
      assert (set x | x in ks) == {ks[0]} + (set x | x in ks[1..]);
      assert ks[0] !in (set x | x in ks[1..]);
    }
  }

  /** Two duplicate-free sequences holding the same values have the same length. */
  lemma SameValuesSameLength<K>(a: seq<K>, b: seq<K>)
    requires Unique(a) && Unique(b)
    requires forall x :: x in a <==> x in b
    ensures |a| == |b|
  {
    UniqueCardinality(a);
    UniqueCardinality(b);
    assert (set x | x in a) == (set x | x in b);
  }

  lemma RepeatedValue<T>(s: seq<T>, i: int, j: int)
    requires 0 <= i < j < |s| && s[i] == s[j]
    ensures multiset(s)[s[i]] >= 2
  {
    assert s == s[..j] + [s[j]] + s[j + 1..];
    assert s[i] in s[..j];
    assert multiset(s) == multiset(s[..j]) + multiset{s[j]} + multiset(s[j + 1..]);
  }

  lemma {:induction false} TwoPositions<T>(s: seq<T>, x: T) returns (p: int, q: int)
    requires multiset(s)[x] >= 2
    ensures 0 <= p < q < |s| && s[p] == x && s[q] == x
  {
    assert s == [s[0]] + s[1..];
    assert multiset(s) == multiset{s[0]} + multiset(s[1..]);
    if s[0] == x {
      assert x in multiset(s[1..]);
      var k :| 0 <= k < |s[1..]| && s[1..][k] == x;
      p, q := 0, k + 1;
    } else {
      var p', q' := TwoPositions(s[1..], x);
      p, q := p' + 1, q' + 1;
    }
  }

  /** Two different positions of a permutation come from two different positions of the original. */
  lemma DistinctOrigins<T>(a: seq<T>, b: seq<T>, i: int, j: int) returns (p: int, q: int)
    requires multiset(a) == multiset(b)
    requires 0 <= i < j < |b|
    ensures 0 <= p < |a| && 0 <= q < |a| && p != q && a[p] == b[i] && a[q] == b[j]
  {
    if b[i] == b[j] {
      RepeatedValue(b, i, j);
      p, q := TwoPositions(a, b[i]);
    } else {
      assert b[i] in multiset(a) && b[j] in multiset(a);
      p :| 0 <= p < |a| && a[p] == b[i];
      q :| 0 <= q < |a| && a[q] == b[j];
    }
  }

  /** Reordering rows keeps a key column free of duplicates. */
  lemma PermutationKeepsUnique<T, K>(a: seq<T>, b: seq<T>, f: T -> K)
    requires multiset(a) == multiset(b)
    requires Unique(Project(a, f))
    ensures Unique(Project(b, f))
  {
    assert |a| == |b| by {
      assert |multiset(a)| == |multiset(b)|;
    }
    forall i, j | 0 <= i < j < |b| ensures Project(b, f)[i] != Project(b, f)[j] {
      var p, q := DistinctOrigins(a, b, i, j);
      assert Project(a, f)[p] != Project(a, f)[q];
    }
  }

  /** In a column without duplicates every value occurs once or not at all. */
  lemma {:induction false} UniqueMultiplicity<K>(ks: seq<K>, x: K)
    requires Unique(ks)
    ensures multiset(ks)[x] == if x in ks then 1 else 0
  {
    if ks != [] {
      assert ks == [ks[0]] + ks[1..];
      assert multiset(ks) == multiset{ks[0]} + multiset(ks[1..]);
      assert Unique(ks[1..]);
      UniqueMultiplicity(ks[1..], x);
      assert ks[0] !in ks[1..];
    }
  }

  /** Two duplicate-free sequences holding the same values are permutations of each other. */
  lemma UniqueSameMultiset<K>(a: seq<K>, b: seq<K>)
    requires Unique(a) && Unique(b)
    requires forall x :: x in a <==> x in b
    ensures multiset(a) == multiset(b)
  {
    forall x ensures multiset(a)[x] == multiset(b)[x] {
      UniqueMultiplicity(a, x);
      UniqueMultiplicity(b, x);
    }
  }

  /** Projecting a column commutes with reordering the rows. */
  lemma {:induction false} ProjectPermutation<T, K>(a: seq<T>, b: seq<T>, f: T -> K)
    requires multiset(a) == multiset(b)
    ensures multiset(Project(a, f)) == multiset(Project(b, f))
    decreases |a|
  {
    if a == [] {
      assert |b| == |multiset(b)| == 0;
    } else {
      var x := a[0];
      assert a == [x] + a[1..];
      assert x in multiset(b);
      var i :| 0 <= i < |b| && b[i] == x;
      var rest := b[..i] + b[i + 1..];
      assert b == b[..i] + [x] + b[i + 1..];
      assert multiset(b) == multiset(b[..i]) + multiset{x} + multiset(b[i + 1..]);
      assert multiset(a) == multiset{x} + multiset(a[1..]);
      assert multiset(rest) == multiset(b[..i]) + multiset(b[i + 1..]);
      assert multiset(rest) == multiset(b) - multiset{x};
      assert multiset(a[1..]) == multiset(a) - multiset{x};
      ProjectPermutation(a[1..], rest, f);
      ProjectAppend(b[..i], b[i + 1..], f);
      ProjectAppend(b[..i] + [x], b[i + 1..], f);
      ProjectAppend(b[..i], [x], f);
      ProjectAppend([x], a[1..], f);
    }
  }
}
