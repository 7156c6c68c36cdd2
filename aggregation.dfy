/**
 * The stages of a MongoDB aggregation pipeline that the dashboard uses,
 * over an in-memory snapshot of a collection: `$group` (one bucket per
 * distinct key with a `$sum: 1` count, and `$sum` of a field per key),
 * `$sort` on a comparison and `$limit`.
 *
 * MongoDB leaves the order of `$group` output and the order of equal keys
 * after `$sort` unspecified. The definitions below fix one such order; the
 * lemmas only state facts that hold whatever order is chosen.
 */
module Aggregation {
  import opened Common

  // ---------------------------------------------------------------------
  // sums and keys

  /** `$sum` of a weight over a sequence. */
  function SumBy<T>(s: seq<T>, w: T -> int): int {
    if |s| == 0 then 0 else w(s[0]) + SumBy(s[1..], w)
  }

  lemma {:induction false} SumByAppend<T>(s: seq<T>, t: seq<T>, w: T -> int)
    ensures SumBy(s + t, w) == SumBy(s, w) + SumBy(t, w)
  {
    if |s| == 0 {
      assert s + t == t;
    } else {
      assert (s + t)[1..] == s[1..] + t;
      SumByAppend(s[1..], t, w);
    }
  }

  /** The keys of the elements, in order. */
  function Keys<T, K>(s: seq<T>, key: T -> K): (ks: seq<K>)
    ensures |ks| == |s|
    ensures forall i :: 0 <= i < |s| ==> ks[i] == key(s[i])
  {
    if |s| == 0 then [] else [key(s[0])] + Keys(s[1..], key)
  }

  predicate NoDuplicates<K(==)>(ks: seq<K>) {
    forall i, j :: 0 <= i < j < |ks| ==> ks[i] != ks[j]
  }

  /** `r` is `s` after a `$match` on `keep`: every copy of each kept element, nothing else. */
  ghost predicate Matched<T(!new)>(r: seq<T>, s: seq<T>, keep: T -> bool) {
    forall x :: multiset(r)[x] == if keep(x) then multiset(s)[x] else 0
  }

  /** The distinct keys of a sequence, each once. */
  function Distinct<K(==)>(ks: seq<K>): (d: seq<K>)
    ensures NoDuplicates(d)
    ensures forall i :: 0 <= i < |d| ==> d[i] in ks
    ensures forall i :: 0 <= i < |ks| ==> ks[i] in d
  {
    if |ks| == 0 then []
    else if ks[0] in ks[1..] then Distinct(ks[1..])
    else [ks[0]] + Distinct(ks[1..])
  }

  /** The number of elements whose key is `k`. */
  function CountWhere<T, K(==)>(s: seq<T>, key: T -> K, k: K): (n: nat)
    ensures n <= |s|
    ensures n > 0 <==> k in Keys(s, key)
  {
    if |s| == 0 then 0
    else (if key(s[0]) == k then 1 else 0) + CountWhere(s[1..], key, k)
  }

  /** The count is exactly the number of elements whose key is `k`. */
  lemma {:induction false} CountWhereExact<T, K>(s: seq<T>, key: T -> K, k: K)
    ensures CountWhere(s, key, k) == multiset(Keys(s, key))[k]
  {
    if |s| > 0 {
      CountWhereExact(s[1..], key, k);
      assert Keys(s, key) == [key(s[0])] + Keys(s[1..], key);
    }
  }

  /** The sum of `w` over the elements whose key is `k`. */
  function SumWhere<T, K(==)>(s: seq<T>, key: T -> K, w: T -> int, k: K): (r: int)
    ensures k !in Keys(s, key) ==> r == 0
  {
    if |s| == 0 then 0
    else (if key(s[0]) == k then w(s[0]) else 0) + SumWhere(s[1..], key, w, k)
  }

  // ---------------------------------------------------------------------
  // $group

  /** One `$group` output document: the key and its `$sum: 1` count. */
  datatype Bucket<K> = Bucket(key: K, count: nat)

  function KeyOf<K>(b: Bucket<K>): K { b.key }

  function CountOf<K>(b: Bucket<K>): int { b.count }

  function BucketsFor<T, K(==)>(ks: seq<K>, s: seq<T>, key: T -> K): (bs: seq<Bucket<K>>)
    ensures |bs| == |ks|
    ensures forall i :: 0 <= i < |ks| ==> bs[i] == Bucket(ks[i], CountWhere(s, key, ks[i]))
  {
    if |ks| == 0 then [] else [Bucket(ks[0], CountWhere(s, key, ks[0]))] + BucketsFor(ks[1..], s, key)
  }

  /** `{ $group: { _id: key, count: { $sum: 1 } } }`. */
  function Group<T, K(==)>(s: seq<T>, key: T -> K): (r: seq<Bucket<K>>)
    ensures forall b :: b in r ==> b.count == CountWhere(s, key, b.key) && b.count >= 1
  {
    BucketsFor(Distinct(Keys(s, key)), s, key)
  }

  /**
   * The buckets of a grouping: one per distinct key, none for a key that no
   * element has, and each counting the elements with its key (at least one).
   */
  lemma GroupShape<T, K>(s: seq<T>, key: T -> K)
    ensures NoDuplicates(Keys(Group(s, key), KeyOf))
    ensures forall k :: k in Keys(Group(s, key), KeyOf) <==> k in Keys(s, key)
    ensures forall b :: b in Group(s, key) ==> b.count == CountWhere(s, key, b.key) && b.count >= 1
  {
    var d := Distinct(Keys(s, key));
    var g := Group(s, key);
    assert Keys(g, KeyOf) == d;
    forall b | b in g
      ensures b.count == CountWhere(s, key, b.key) && b.count >= 1
    {
      var i :| 0 <= i < |g| && g[i] == b;
      assert d[i] in Keys(s, key);
    }
  }

  lemma {:induction false} BucketsForCons<T, K>(ks: seq<K>, x: T, r: seq<T>, key: T -> K)
    requires NoDuplicates(ks)
    ensures SumBy(BucketsFor(ks, [x] + r, key), CountOf)
         == SumBy(BucketsFor(ks, r, key), CountOf) + (if key(x) in ks then 1 else 0)
  {
    if |ks| > 0 {
      assert ([x] + r)[1..] == r;
      assert NoDuplicates(ks[1..]) by {
        forall i, j | 0 <= i < j < |ks| - 1 ensures ks[1..][i] != ks[1..][j] {
          assert ks[i + 1] != ks[j + 1];
        }
      }
      assert ks[0] !in ks[1..] by {
        forall j | 0 <= j < |ks| - 1 ensures ks[1..][j] != ks[0] {
          assert ks[0] != ks[j + 1];
        }
      }
      BucketsForCons(ks[1..], x, r, key);
    }
  }

  lemma {:induction false} BucketsForTotal<T, K>(ks: seq<K>, s: seq<T>, key: T -> K)
    requires NoDuplicates(ks)
    requires forall k :: k in Keys(s, key) ==> k in ks
    ensures SumBy(BucketsFor(ks, s, key), CountOf) == |s|
  {
    if |s| == 0 {
      BucketsForEmpty(ks, s, key);
    } else {
      assert key(s[0]) == Keys(s, key)[0];
      forall k | k in Keys(s[1..], key) ensures k in ks {
        var i :| 0 <= i < |s| - 1 && Keys(s[1..], key)[i] == k;
        assert Keys(s, key)[i + 1] == k;
      }
      BucketsForTotal(ks, s[1..], key);
      assert s == [s[0]] + s[1..];
      BucketsForCons(ks, s[0], s[1..], key);
    }
  }

  lemma {:induction false} BucketsForEmpty<T, K>(ks: seq<K>, s: seq<T>, key: T -> K)
    requires |s| == 0
    ensures SumBy(BucketsFor(ks, s, key), CountOf) == 0
  {
    if |ks| > 0 {
      BucketsForEmpty(ks[1..], s, key);
    }
  }

  /** `$group` loses no element: the bucket counts add up to the input size. */
  lemma GroupCountsTotal<T, K>(s: seq<T>, key: T -> K)
    ensures SumBy(Group(s, key), CountOf) == |s|
  {
    BucketsForTotal(Distinct(Keys(s, key)), s, key);
  }

  /** The sum of `SumWhere` over a list of keys. */
  function SumOverKeys<T, K(==)>(ks: seq<K>, s: seq<T>, key: T -> K, w: T -> int): int {
    if |ks| == 0 then 0 else SumWhere(s, key, w, ks[0]) + SumOverKeys(ks[1..], s, key, w)
  }

  lemma {:induction false} SumOverKeysCons<T, K>(ks: seq<K>, x: T, r: seq<T>, key: T -> K, w: T -> int)
    requires NoDuplicates(ks)
    ensures SumOverKeys(ks, [x] + r, key, w)
         == SumOverKeys(ks, r, key, w) + (if key(x) in ks then w(x) else 0)
  {
    if |ks| > 0 {
      assert ([x] + r)[1..] == r;
      assert NoDuplicates(ks[1..]) by {
        forall i, j | 0 <= i < j < |ks| - 1 ensures ks[1..][i] != ks[1..][j] {
          assert ks[i + 1] != ks[j + 1];
        }
      }
      assert ks[0] !in ks[1..] by {
        forall j | 0 <= j < |ks| - 1 ensures ks[1..][j] != ks[0] {
          assert ks[0] != ks[j + 1];
        }
      }
      SumOverKeysCons(ks[1..], x, r, key, w);
    }
  }

  lemma {:induction false} SumOverKeysEmpty<T, K>(ks: seq<K>, s: seq<T>, key: T -> K, w: T -> int)
    requires |s| == 0
    ensures SumOverKeys(ks, s, key, w) == 0
  {
    if |ks| > 0 {
      SumOverKeysEmpty(ks[1..], s, key, w);
    }
  }

  lemma {:induction false} SumOverKeysTotal<T, K>(ks: seq<K>, s: seq<T>, key: T -> K, w: T -> int)
    requires NoDuplicates(ks)
    requires forall k :: k in Keys(s, key) ==> k in ks
    ensures SumOverKeys(ks, s, key, w) == SumBy(s, w)
  {
    if |s| == 0 {
      SumOverKeysEmpty(ks, s, key, w);
    } else {
      assert key(s[0]) == Keys(s, key)[0];
      forall k | k in Keys(s[1..], key) ensures k in ks {
        var i :| 0 <= i < |s| - 1 && Keys(s[1..], key)[i] == k;
        assert Keys(s, key)[i + 1] == k;
      }
      SumOverKeysTotal(ks, s[1..], key, w);
      assert s == [s[0]] + s[1..];
      SumOverKeysCons(ks, s[0], s[1..], key, w);
    }
  }

  lemma {:induction false} BucketsForSums<T, K>(ks: seq<K>, s: seq<T>, key: T -> K, w: T -> int, bw: Bucket<K> -> int)
    requires forall b: Bucket<K> :: bw(b) == SumWhere(s, key, w, b.key)
    ensures SumBy(BucketsFor(ks, s, key), bw) == SumOverKeys(ks, s, key, w)
  {
    if |ks| > 0 {
      BucketsForSums(ks[1..], s, key, w, bw);
    }
  }

  /**
   * The per-key `$sum` of a field, added over the buckets of a grouping,
   * is the `$sum` of that field over the whole input.
   */
  lemma GroupSumsTotal<T, K>(s: seq<T>, key: T -> K, w: T -> int, bw: Bucket<K> -> int)
    requires forall b: Bucket<K> :: bw(b) == SumWhere(s, key, w, b.key)
    ensures SumBy(Group(s, key), bw) == SumBy(s, w)
  {
    var d := Distinct(Keys(s, key));
    BucketsForSums(d, s, key, w, bw);
    SumOverKeysTotal(d, s, key, w);
  }

  // ---------------------------------------------------------------------
  // $sort

  /** A comparison that is total and transitive (ties allowed). */
  ghost predicate TotalPreorder<T(!new)>(le: (T, T) -> bool) {
    && (forall a, b :: le(a, b) || le(b, a))
    && (forall a, b, c :: le(a, b) && le(b, c) ==> le(a, c))
  }

  predicate SortedBy<T>(s: seq<T>, le: (T, T) -> bool) {
    forall i, j :: 0 <= i < j < |s| ==> le(s[i], s[j])
  }

  function Insert<T>(x: T, s: seq<T>, le: (T, T) -> bool): (r: seq<T>)
    ensures multiset(r) == multiset(s) + multiset{x}
  {
    if |s| == 0 then [x]
    else if le(x, s[0]) then [x] + s
    else
      assert s == [s[0]] + s[1..];
      [s[0]] + Insert(x, s[1..], le)
  }

  /** `$sort` (an insertion sort: one of the orders MongoDB may produce). */
  function SortBy<T>(s: seq<T>, le: (T, T) -> bool): (r: seq<T>)
    ensures multiset(r) == multiset(s)
  {
    if |s| == 0 then []
    else
      assert s == [s[0]] + s[1..];
      Insert(s[0], SortBy(s[1..], le), le)
  }

  /** An element placed after the head of a sorted sequence, with all the rest, stays at or above the head. */
  lemma InsertAboveHead<T(!new)>(x: T, s: seq<T>, le: (T, T) -> bool)
    requires TotalPreorder(le) && SortedBy(s, le)
    requires |s| > 0 && !le(x, s[0])
    ensures forall y :: y in Insert(x, s[1..], le) ==> le(s[0], y)
  {
    var rest := Insert(x, s[1..], le);
    assert le(s[0], x);
    forall y | y in rest ensures le(s[0], y) {
      assert y in multiset(rest);
      assert y == x || y in multiset(s[1..]);
      if y != x {
        var k :| 0 <= k < |s[1..]| && s[1..][k] == y;
        assert s[k + 1] == y;
      }
    }
  }

  lemma {:induction false} InsertSorted<T(!new)>(x: T, s: seq<T>, le: (T, T) -> bool)
    requires TotalPreorder(le) && SortedBy(s, le)
    ensures SortedBy(Insert(x, s, le), le)
  {
    if |s| > 0 && !le(x, s[0]) {
      var rest := Insert(x, s[1..], le);
      InsertSorted(x, s[1..], le);
      InsertAboveHead(x, s, le);
      var r := Insert(x, s, le);
      assert r == [s[0]] + rest;
      forall i, j | 0 <= i < j < |r| ensures le(r[i], r[j]) {
        if i == 0 {
          assert r[j] == rest[j - 1];
          assert r[j] in rest;
        } else {
          assert r[i] == rest[i - 1] && r[j] == rest[j - 1];
        }
      }
    }
  }

  /** `$sort` yields an ordered result. */
  lemma {:induction false} SortBySorted<T(!new)>(s: seq<T>, le: (T, T) -> bool)
    requires TotalPreorder(le)
    ensures SortedBy(SortBy(s, le), le)
  {
    if |s| > 0 {
      SortBySorted(s[1..], le);
      InsertSorted(s[0], SortBy(s[1..], le), le);
    }
  }

  lemma {:induction false} InsertSum<T>(x: T, s: seq<T>, le: (T, T) -> bool, w: T -> int)
    ensures SumBy(Insert(x, s, le), w) == w(x) + SumBy(s, w)
  {
    if |s| > 0 && !le(x, s[0]) {
      InsertSum(x, s[1..], le, w);
    } else if |s| > 0 {
      assert ([x] + s)[1..] == s;
    }
  }

  /** `$sort` moves documents but adds or drops none, so field sums survive it. */
  lemma {:induction false} SortBySum<T>(s: seq<T>, le: (T, T) -> bool, w: T -> int)
    ensures SumBy(SortBy(s, le), w) == SumBy(s, w)
  {
    if |s| > 0 {
      SortBySum(s[1..], le, w);
      InsertSum(s[0], SortBy(s[1..], le), le, w);
    }
  }

  lemma SortByMembers<T>(s: seq<T>, le: (T, T) -> bool)
    ensures |SortBy(s, le)| == |s|
    ensures forall x :: x in SortBy(s, le) <==> x in s
  {
    var r := SortBy(s, le);
    assert |r| == |multiset(r)| == |multiset(s)| == |s|;
    forall x ensures x in r <==> x in s {
      assert x in r <==> x in multiset(r);
      assert x in s <==> x in multiset(s);
    }
  }

  /** No two elements share a value of `f`. */
  predicate NoDuplicatesBy<T, K(==)>(s: seq<T>, f: T -> K) {
    forall i, j :: 0 <= i < j < |s| ==> f(s[i]) != f(s[j])
  }

  /** Without its head a sequence keeps distinct keys, none equal to the head's. */
  lemma NoDuplicatesByTail<T, K>(s: seq<T>, f: T -> K)
    requires |s| > 0 && NoDuplicatesBy(s, f)
    ensures NoDuplicatesBy(s[1..], f)
    ensures forall y :: y in s[1..] ==> f(y) != f(s[0])
  {
    forall i, j | 0 <= i < j < |s| - 1 ensures f(s[1..][i]) != f(s[1..][j]) {
      assert f(s[i + 1]) != f(s[j + 1]);
    }
    forall y | y in s[1..] ensures f(y) != f(s[0]) {
      var k :| 0 <= k < |s| - 1 && s[1..][k] == y;
      assert f(s[0]) != f(s[k + 1]);
    }
  }

  /** A head whose key no later element has keeps keys distinct. */
  lemma NoDuplicatesByCons<T, K>(x: T, s: seq<T>, f: T -> K)
    requires NoDuplicatesBy(s, f)
    requires forall y :: y in s ==> f(y) != f(x)
    ensures NoDuplicatesBy([x] + s, f)
  {
    var r := [x] + s;
    forall i, j | 0 <= i < j < |r| ensures f(r[i]) != f(r[j]) {
      assert r[j] == s[j - 1];
      if i == 0 {
        assert r[j] in s;
      } else {
        assert r[i] == s[i - 1];
      }
    }
  }

  lemma {:induction false} InsertNoDuplicatesBy<T, K>(x: T, s: seq<T>, le: (T, T) -> bool, f: T -> K)
    requires NoDuplicatesBy(s, f)
    requires forall y :: y in s ==> f(y) != f(x)
    ensures NoDuplicatesBy(Insert(x, s, le), f)
  {
    if |s| == 0 {
    } else if le(x, s[0]) {
      NoDuplicatesByCons(x, s, f);
    } else {
      NoDuplicatesByTail(s, f);
      assert forall y :: y in s[1..] ==> y in s;
      InsertNoDuplicatesBy(x, s[1..], le, f);
      var rest := Insert(x, s[1..], le);
      forall y | y in rest ensures f(y) != f(s[0]) {
        assert y in multiset(rest);
        if y != x {
          assert y in multiset(s[1..]);
        }
      }
      NoDuplicatesByCons(s[0], rest, f);
    }
  }

  /** `$sort` keeps keys that were distinct distinct. */
  lemma {:induction false} SortByNoDuplicatesBy<T, K>(s: seq<T>, le: (T, T) -> bool, f: T -> K)
    requires NoDuplicatesBy(s, f)
    ensures NoDuplicatesBy(SortBy(s, le), f)
  {
    if |s| > 0 {
      var tail := s[1..];
      NoDuplicatesByTail(s, f);
      SortByNoDuplicatesBy(tail, le, f);
      forall y | y in SortBy(tail, le) ensures f(y) != f(s[0]) {
        assert y in multiset(SortBy(tail, le));
        assert y in multiset(tail);
      }
      InsertNoDuplicatesBy(s[0], SortBy(s[1..], le), le, f);
    }
  }

  // ---------------------------------------------------------------------
  // $group followed by $sort

  /** A bucket of a grouping: a key some element has, with its count. */
  lemma GroupMember<T, K>(s: seq<T>, key: T -> K, b: Bucket<K>)
    requires b in Group(s, key)
    ensures b.key in Keys(s, key) && b.count == CountWhere(s, key, b.key) && b.count >= 1
  {
    var ks := Distinct(Keys(s, key));
    var g := Group(s, key);
    var i :| 0 <= i < |g| && g[i] == b;
    assert ks[i] in Keys(s, key);
  }

  /** A sorted bucket is a bucket of the grouping: a key some element has, with its count. */
  lemma SortedGroupMember<T, K>(s: seq<T>, key: T -> K, le: (Bucket<K>, Bucket<K>) -> bool, b: Bucket<K>)
    requires b in SortBy(Group(s, key), le)
    ensures b.key in Keys(s, key) && b.count == CountWhere(s, key, b.key) && b.count >= 1
  {
    var g := Group(s, key);
    assert b in multiset(SortBy(g, le));
    assert b in multiset(g);
    GroupMember(s, key, b);
  }

  /** Every key some element has gets a sorted bucket, at some position `j`. */
  lemma SortedGroupIndex<T, K>(s: seq<T>, key: T -> K, le: (Bucket<K>, Bucket<K>) -> bool, x: K) returns (j: nat)
    requires x in Keys(s, key)
    ensures j < |SortBy(Group(s, key), le)|
    ensures SortBy(Group(s, key), le)[j] == Bucket(x, CountWhere(s, key, x))
  {
    var ks := Distinct(Keys(s, key));
    var g := Group(s, key);
    var sorted := SortBy(g, le);
    var k :| 0 <= k < |Keys(s, key)| && Keys(s, key)[k] == x;
    assert x in ks;
    var i :| 0 <= i < |ks| && ks[i] == x;
    assert g[i] == Bucket(x, CountWhere(s, key, x));
    assert g[i] in multiset(g);
    assert g[i] in multiset(sorted);
    j :| 0 <= j < |sorted| && sorted[j] == g[i];
  }

  /** The sorted buckets' keys are exactly the keys the elements have. */
  lemma SortedGroupKeys<T, K>(s: seq<T>, key: T -> K, le: (Bucket<K>, Bucket<K>) -> bool)
    ensures forall x :: x in Keys(SortBy(Group(s, key), le), KeyOf) <==> x in Keys(s, key)
  {
    var sorted := SortBy(Group(s, key), le);
    forall x ensures x in Keys(sorted, KeyOf) <==> x in Keys(s, key) {
      if x in Keys(sorted, KeyOf) {
        var i :| 0 <= i < |sorted| && Keys(sorted, KeyOf)[i] == x;
        SortedGroupMember(s, key, le, sorted[i]);
      }
      if x in Keys(s, key) {
        var j := SortedGroupIndex(s, key, le, x);
        assert Keys(sorted, KeyOf)[j] == x;
      }
    }
  }

  /** No key has two sorted buckets. */
  lemma SortedGroupDistinct<T, K>(s: seq<T>, key: T -> K, le: (Bucket<K>, Bucket<K>) -> bool)
    ensures NoDuplicatesBy(SortBy(Group(s, key), le), KeyOf)
  {
    var ks := Distinct(Keys(s, key));
    var g := Group(s, key);
    assert NoDuplicatesBy(g, KeyOf) by {
      forall i, j | 0 <= i < j < |g| ensures KeyOf(g[i]) != KeyOf(g[j]) {
        assert g[i].key == ks[i] && g[j].key == ks[j];
      }
    }
    SortByNoDuplicatesBy(g, le, KeyOf);
  }

  /** The sorted buckets' counts add up to the number of elements. */
  lemma SortedGroupTotal<T, K>(s: seq<T>, key: T -> K, le: (Bucket<K>, Bucket<K>) -> bool)
    ensures SumBy(SortBy(Group(s, key), le), CountOf) == |s|
  {
    GroupCountsTotal(s, key);
    SortBySum(Group(s, key), le, CountOf);
  }

  // ---------------------------------------------------------------------
  // $lookup

  /**
   * `$lookup` on `_id` followed by `$unwind`: the first document of the
   * other collection whose key is `k`, or none, which drops the entry.
   */
  function LookupFirst<T, K(==)>(s: seq<T>, key: T -> K, k: K): (r: Option<T>)
    ensures r.Some? ==> r.value in s && key(r.value) == k
    ensures r.None? <==> forall i :: 0 <= i < |s| ==> key(s[i]) != k
  {
    if |s| == 0 then None
    else if key(s[0]) == k then Some(s[0])
    else LookupFirst(s[1..], key, k)
  }

  // ---------------------------------------------------------------------
  // $limit

  /** `{ $limit: n }`: the first `n` documents, or all when there are fewer. */
  function Limit<T>(s: seq<T>, n: nat): (r: seq<T>)
    ensures |r| == if |s| <= n then |s| else n
    ensures |s| <= n ==> r == s
    ensures r == s[..|r|]
  {
    if |s| <= n then s else s[..n]
  }
}
