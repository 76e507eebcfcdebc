/**
 * GROUP BY key with COUNT(*): one row per distinct key with the number of
 * input rows carrying it.
 */
module Grouping {
  import opened Sequences
  import opened Sorting

  /** An aggregate row: a grouping key and how many rows fell into its group. */
  datatype Group<K> = Group(key: K, count: nat)

  function KeyOf<K>(g: Group<K>): K { g.key }

  /** The key column of an aggregate result. */
  function Keys<K>(gs: seq<Group<K>>): seq<K> { Project(gs, KeyOf) }

  /** Sum of the count column. */
  function Total<K>(gs: seq<Group<K>>): nat {
    if gs == [] then 0 else gs[0].count + Total(gs[1..])
  }

  /**
   * `gs` is a GROUP BY of the key column `ks`, in any row order: every key at
   * most once, exactly the keys of `ks`, each counted as often as it occurs.
   */
  ghost predicate IsGrouping<K(!new)>(ks: seq<K>, gs: seq<Group<K>>) {
    && Unique(Keys(gs))
    && (forall g :: g in gs ==> g.count == CountOf(ks, g.key))
    && (forall k :: k in ks <==> k in Keys(gs))
  }

  /** GROUP BY key, COUNT(*): groups in order of first occurrence of their key. */
  function GroupCount<K(==,!new)>(ks: seq<K>): (gs: seq<Group<K>>)
    ensures IsGrouping(ks, gs)
  {
    var d := Distinct(ks);
    var gs := seq(|d|, i requires 0 <= i < |d| => Group(d[i], CountOf(ks, d[i])));
    assert Keys(gs) == d;
    gs
  }

  /** Dropping the first group of a grouping leaves a grouping of the rows with other keys. */
  lemma GroupingTail<K(!new)>(ks: seq<K>, gs: seq<Group<K>>)
    requires IsGrouping(ks, gs) && gs != []
    ensures IsGrouping(Without(ks, gs[0].key), gs[1..])
  {
    var k := gs[0].key;
    var w := Without(ks, k);
    assert Keys(gs[1..]) == Keys(gs)[1..];
    forall g | g in gs[1..] ensures g.count == CountOf(w, g.key) {
      var i :| 0 <= i < |gs[1..]| && gs[1..][i] == g;
      assert Keys(gs)[i + 1] == g.key && Keys(gs)[0] == k;
    }
    forall x ensures x in w <==> x in Keys(gs[1..]) {
      if x in Keys(gs[1..]) {
        var i :| 0 <= i < |gs[1..]| && Keys(gs[1..])[i] == x;
        assert Keys(gs)[i + 1] == x && Keys(gs)[0] == k;
      }
      assert x in Keys(gs) <==> x == k || x in Keys(gs[1..]);
    }
  }

  /** COUNT(*) conservation: the counts of any grouping add up to the number of rows grouped. */
  lemma {:induction false} GroupingTotal<K(!new)>(ks: seq<K>, gs: seq<Group<K>>)
    requires IsGrouping(ks, gs)
    ensures Total(gs) == |ks|
    decreases |gs|
  {
    if gs == [] {
      assert Keys(gs) == [];
      forall k ensures multiset(ks)[k] == 0 {
        assert k in ks <==> k in Keys(gs);
      }
      assert multiset(ks) == multiset{};
      assert |ks| == |multiset(ks)|;
    } else {
      GroupingTail(ks, gs);
      GroupingTotal(Without(ks, gs[0].key), gs[1..]);
      assert gs[0] in gs;
    }
  }

  /** Reordering the rows of a grouping leaves a grouping. */
  lemma GroupingPermutation<K(!new)>(ks: seq<K>, a: seq<Group<K>>, b: seq<Group<K>>)
    requires IsGrouping(ks, a) && multiset(a) == multiset(b)
    ensures IsGrouping(ks, b)
  {
    PermutationKeepsUnique(a, b, KeyOf);
    forall g | g in b ensures g.count == CountOf(ks, g.key) {
      assert g in multiset(a);
    }
    forall k ensures k in Keys(a) <==> k in Keys(b) {
      if k in Keys(a) {
        var i :| 0 <= i < |a| && Keys(a)[i] == k;
        assert a[i] in multiset(b);
      }
      if k in Keys(b) {
        var i :| 0 <= i < |b| && Keys(b)[i] == k;
        assert b[i] in multiset(a);
      }
    }
  }

  /** A strict ordering of keys. */
  ghost predicate StrictOrder<K(!new)>(lt: (K, K) -> bool) {
    && (forall a :: !lt(a, a))
    && (forall a, b, c :: lt(a, b) && lt(b, c) ==> lt(a, c))
  }

  /** Keys strictly increase down the rows. */
  predicate AscendingBy<K>(gs: seq<Group<K>>, lt: (K, K) -> bool) {
    forall i, j :: 0 <= i < j < |gs| ==> lt(gs[i].key, gs[j].key)
  }

  /** A grouping whose keys strictly ascend is unique: the ORDER BY fixes every row. */
  lemma {:induction false} GroupingDetermined<K(!new)>(ks: seq<K>, a: seq<Group<K>>, b: seq<Group<K>>, lt: (K, K) -> bool)
    requires StrictOrder(lt)
    requires IsGrouping(ks, a) && AscendingBy(a, lt)
    requires IsGrouping(ks, b) && AscendingBy(b, lt)
    ensures a == b
    decreases |a|
  {
    EmptyGrouping(ks, a, b);
    if a != [] {
      FirstGroupsAgree(ks, a, b, lt);
      GroupingTail(ks, a);
      GroupingTail(ks, b);
      GroupingDetermined(Without(ks, a[0].key), a[1..], b[1..], lt);
      assert a == [a[0]] + a[1..] && b == [b[0]] + b[1..];
    }
  }

  /** Two groupings of the same rows are empty together. */
  lemma EmptyGrouping<K(!new)>(ks: seq<K>, a: seq<Group<K>>, b: seq<Group<K>>)
    requires IsGrouping(ks, a) && IsGrouping(ks, b)
    ensures a == [] <==> b == []
  {
    if a != [] {
      assert a[0].key in Keys(a);
    }
    if b != [] {
      assert b[0].key in Keys(b);
    }
  }

  /** Two non-empty groupings with strictly ascending keys start with the same row: the smallest key. */
  lemma FirstGroupsAgree<K(!new)>(ks: seq<K>, a: seq<Group<K>>, b: seq<Group<K>>, lt: (K, K) -> bool)
    requires StrictOrder(lt)
    requires IsGrouping(ks, a) && AscendingBy(a, lt) && a != []
    requires IsGrouping(ks, b) && AscendingBy(b, lt) && b != []
    ensures a[0] == b[0]
  {
    var ka, kb := a[0].key, b[0].key;
    assert ka in Keys(a) && kb in Keys(b);
    var j :| 0 <= j < |b| && Keys(b)[j] == ka;
    var i :| 0 <= i < |a| && Keys(a)[i] == kb;
    assert i != 0 ==> lt(ka, kb);
    assert j != 0 ==> lt(kb, ka);
    assert ka == kb;
    assert a[0] in a && b[0] in b;
  }

  /**
   * GROUP BY key, COUNT(*), ORDER BY `le`: a grouping of `ks`, sorted by
   * `le`, whose counts add up to the number of rows.
   */
  function CountBy<K(==,!new)>(ks: seq<K>, le: (Group<K>, Group<K>) -> bool): (r: seq<Group<K>>)
    requires TotalPreorder(le)
    ensures IsGrouping(ks, r)
    ensures SortedBy(r, le)
    ensures Total(r) == |ks|
  {
    var gs := GroupCount(ks);
    var r := SortBy(gs, le);
    GroupingPermutation(ks, gs, r);
    SortBySorted(gs, le);
    GroupingTotal(ks, r);
    r
  }

  /**
   * Rows sorted by an ordering that ranks rows with different keys by `lt`
   * have strictly ascending keys, once no key occurs twice.
   */
  lemma SortedAscending<K(!new)>(gs: seq<Group<K>>, le: (Group<K>, Group<K>) -> bool, lt: (K, K) -> bool)
    requires Unique(Keys(gs)) && SortedBy(gs, le)
    requires forall a, b :: le(a, b) && a.key != b.key ==> lt(a.key, b.key)
    ensures AscendingBy(gs, lt)
  {
    forall i, j | 0 <= i < j < |gs| ensures lt(gs[i].key, gs[j].key) {
      assert Keys(gs)[i] != Keys(gs)[j];
    }
  }

  /** Every key of a grouping comes from the rows grouped. */
  lemma GroupKeysFromRows<K(!new)>(ks: seq<K>, gs: seq<Group<K>>, g: Group<K>)
    requires IsGrouping(ks, gs) && g in gs
    ensures g.key in ks && g.count >= 1
  {
    assert g.key in Keys(gs);
  }
}
