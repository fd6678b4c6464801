/**
 * Sequence machinery shared by the aggregations: counting, keys in order of first
 * occurrence (the iteration order of a JavaScript `Map`), the stable descending
 * sort that `Array.prototype.sort` performs with a `b - a` comparator, and the
 * `groupBy` helper of the board.
 */
module Collections {
  import opened Wrappers

  /** Number of occurrences of `x` in `s`. */
  function Count<T(==)>(s: seq<T>, x: T): (n: nat)
    ensures n <= |s|
  {
    if |s| == 0 then 0
    else Count(s[..|s| - 1], x) + (if s[|s| - 1] == x then 1 else 0)
  }

  /** An element is counted at least once exactly when it occurs. */
  lemma {:induction false} CountPositive<T>(s: seq<T>, x: T)
    ensures Count(s, x) > 0 <==> x in s
  {
    if |s| > 0 {
      var pre := s[..|s| - 1];
      CountPositive(pre, x);
      SplitLast(s);
      assert x in s <==> x in pre || s[|s| - 1] == x;
    }
  }

  lemma CountAppend<T>(s: seq<T>, x: T, y: T)
    ensures Count(s + [x], y) == Count(s, y) + (if x == y then 1 else 0)
  {
    assert (s + [x])[..|s|] == s;
  }

  lemma PrefixSnoc<T>(s: seq<T>, i: nat)
    requires i < |s|
    ensures s[..i + 1] == s[..i] + [s[i]]
  {
  }

  lemma SplitLast<T>(s: seq<T>)
    requires |s| > 0
    ensures s == s[..|s| - 1] + [s[|s| - 1]]
  {
  }

  predicate Distinct<T(==)>(s: seq<T>) {
    forall i, j :: 0 <= i < j < |s| ==> s[i] != s[j]
  }

  /** The distinct elements of `s`, each listed where it first occurs. */
  function Dedup<T(==)>(s: seq<T>): (d: seq<T>)
    ensures Distinct(d)
  {
    if |s| == 0 then []
    else
      assert s == s[..|s| - 1] + [s[|s| - 1]];
      var d := Dedup(s[..|s| - 1]);
      if s[|s| - 1] in d then d else d + [s[|s| - 1]]
  }

  /** An element is listed by `Dedup` exactly when it occurs. */
  lemma {:induction false} DedupMembers<T>(s: seq<T>, x: T)
    ensures x in Dedup(s) <==> x in s
  {
    if |s| > 0 {
      var pre := s[..|s| - 1];
      DedupMembers(pre, x);
      SplitLast(s);
      assert x in s <==> x in pre || s[|s| - 1] == x;
    }
  }

  lemma DedupHas<T>(s: seq<T>, m: nat)
    requires m < |s|
    ensures s[m] in Dedup(s)
  {
    DedupMembers(s, s[m]);
  }

  lemma DedupFrom<T>(s: seq<T>, i: nat)
    requires i < |Dedup(s)|
    ensures Dedup(s)[i] in s
  {
    DedupMembers(s, Dedup(s)[i]);
  }

  lemma DedupAppend<T>(s: seq<T>, x: T)
    ensures Dedup(s + [x]) == if x in Dedup(s) then Dedup(s) else Dedup(s) + [x]
  {
    assert (s + [x])[..|s|] == s;
  }

  /** An element listed earlier by `Dedup` occurs in `s` before any occurrence of one listed later. */
  lemma {:induction false} DedupOrder<T>(s: seq<T>, i: nat, j: nat, m: nat)
    requires i < j < |Dedup(s)| && m < |s| && s[m] == Dedup(s)[j]
    ensures Dedup(s)[i] in s[..m]
  {
    var n := |s|;
    var pre := s[..n - 1];
    var last := s[n - 1];
    var d := Dedup(pre);
    assert s == pre + [last];
    if last in d {
      if m < n - 1 {
        assert pre[m] == s[m];
        DedupOrder(pre, i, j, m);
        assert pre[..m] == s[..m];
      } else {
        DedupMembers(pre, last);
        var m' :| 0 <= m' < |pre| && pre[m'] == last;
        DedupOrder(pre, i, j, m');
        assert pre[..m'] == s[..m'];
        assert s[..m'] <= s[..m];
      }
    } else if j < |d| {
      assert Dedup(s)[j] == d[j];
      assert m < n - 1;
      assert pre[m] == s[m];
      DedupOrder(pre, i, j, m);
      assert pre[..m] == s[..m];
    } else {
      assert Dedup(s)[i] == d[i];
      DedupMembers(pre, d[i]);
      DedupMembers(pre, last);
      assert m == n - 1;
      assert pre == s[..m];
    }
  }

  /** Each of the keys `ks` with its number of occurrences in `s`. */
  function TallyOf<T(==)>(ks: seq<T>, s: seq<T>): (r: seq<(T, nat)>)
    ensures |r| == |ks|
    ensures forall i :: 0 <= i < |ks| ==> r[i] == (ks[i], Count(s, ks[i]))
  {
    if |ks| == 0 then [] else [(ks[0], Count(s, ks[0]))] + TallyOf(ks[1..], s)
  }

  /** The `[...counts.entries()]` of a counting `Map` filled from `s`. */
  function Tally<T(==)>(s: seq<T>): seq<(T, nat)> {
    TallyOf(Dedup(s), s)
  }

  function Second<T>(e: (T, nat)): int {
    e.1
  }

  function SumOf<T>(s: seq<T>, f: T -> int): int {
    if |s| == 0 then 0 else f(s[0]) + SumOf(s[1..], f)
  }

  lemma {:induction false} SumOfAppend<T>(a: seq<T>, b: seq<T>, f: T -> int)
    ensures SumOf(a + b, f) == SumOf(a, f) + SumOf(b, f)
  {
    if |a| > 0 {
      assert (a + b)[1..] == a[1..] + b;
      SumOfAppend(a[1..], b, f);
    } else {
      assert a + b == b;
    }
  }

  lemma {:induction false} TallyOfAppend<T>(ks: seq<T>, s: seq<T>, x: T)
    requires Distinct(ks)
    ensures SumOf(TallyOf(ks, s + [x]), Second) == SumOf(TallyOf(ks, s), Second) + (if x in ks then 1 else 0)
  {
    if |ks| > 0 {
      CountAppend(s, x, ks[0]);
      TallyOfAppend(ks[1..], s, x);
      assert TallyOf(ks, s + [x])[1..] == TallyOf(ks[1..], s + [x]);
      assert TallyOf(ks, s)[1..] == TallyOf(ks[1..], s);
      assert x in ks <==> x == ks[0] || x in ks[1..];
      assert ks[0] == x ==> x !in ks[1..];
    }
  }

  lemma {:induction false} TallyOfSnoc<T>(ks: seq<T>, k: T, s: seq<T>)
    ensures SumOf(TallyOf(ks + [k], s), Second) == SumOf(TallyOf(ks, s), Second) + Count(s, k)
  {
    assert TallyOf(ks + [k], s) == TallyOf(ks, s) + [(k, Count(s, k))];
    SumOfAppend(TallyOf(ks, s), [(k, Count(s, k))], Second);
  }

  /** The counts of a tally add up to the number of items counted. */
  lemma {:induction false} TallySum<T>(s: seq<T>)
    ensures SumOf(Tally(s), Second) == |s|
  {
    if |s| > 0 {
      var pre := s[..|s| - 1];
      var x := s[|s| - 1];
      assert s == pre + [x];
      TallySum(pre);
      DedupAppend(pre, x);
      if x in Dedup(pre) {
        TallyOfAppend(Dedup(pre), pre, x);
      } else {
        TallyOfAppend(Dedup(pre), pre, x);
        TallyOfSnoc(Dedup(pre), x, s);
        DedupMembers(pre, x);
        CountPositive(pre, x);
        CountAppend(pre, x, x);
      }
    }
  }

  // The stable descending sort.

  predicate SortedDesc<T>(s: seq<T>, rank: T -> int) {
    forall i, j :: 0 <= i < j < |s| ==> rank(s[i]) >= rank(s[j])
  }

  /** Inserts `x` after every element whose rank is at least its own. */
  function Insert<T(==)>(x: T, s: seq<T>, rank: T -> int): (r: seq<T>)
    ensures multiset(r) == multiset(s) + multiset{x}
  {
    if |s| == 0 then [x]
    else if rank(s[0]) >= rank(x) then
      assert s == [s[0]] + s[1..];
      [s[0]] + Insert(x, s[1..], rank)
    else [x] + s
  }

  /** Inserting below a bound the other elements respect keeps every element below it. */
  lemma {:induction false} InsertBounded<T>(x: T, s: seq<T>, rank: T -> int, b: int)
    requires rank(x) <= b && forall i :: 0 <= i < |s| ==> rank(s[i]) <= b
    ensures forall i :: 0 <= i < |Insert(x, s, rank)| ==> rank(Insert(x, s, rank)[i]) <= b
  {
    if |s| > 0 && rank(s[0]) >= rank(x) {
      InsertBounded(x, s[1..], rank, b);
      assert Insert(x, s, rank) == [s[0]] + Insert(x, s[1..], rank);
    }
  }

  lemma {:induction false} InsertSorted<T>(x: T, s: seq<T>, rank: T -> int)
    requires SortedDesc(s, rank)
    ensures SortedDesc(Insert(x, s, rank), rank)
  {
    if |s| > 0 && rank(s[0]) >= rank(x) {
      var r' := Insert(x, s[1..], rank);
      InsertSorted(x, s[1..], rank);
      InsertBounded(x, s[1..], rank, rank(s[0]));
      assert Insert(x, s, rank) == [s[0]] + r';
    }
  }

  /**
   * `[...s].sort((a, b) => rank(b) - rank(a))`: a stable sort into non-increasing
   * rank, built by inserting the elements in their original order.
   */
  function SortDesc<T(==)>(s: seq<T>, rank: T -> int): (r: seq<T>)
    ensures multiset(r) == multiset(s)
    ensures SortedDesc(r, rank)
  {
    if |s| == 0 then []
    else
      assert s == s[..|s| - 1] + [s[|s| - 1]];
      InsertSorted(s[|s| - 1], SortDesc(s[..|s| - 1], rank), rank);
      Insert(s[|s| - 1], SortDesc(s[..|s| - 1], rank), rank)
  }

  /** The elements of `s` of rank `c`, in order. */
  function OfRank<T>(s: seq<T>, rank: T -> int, c: int): seq<T> {
    if |s| == 0 then [] else (if rank(s[0]) == c then [s[0]] else []) + OfRank(s[1..], rank, c)
  }

  lemma {:induction false} OfRankAppend<T>(a: seq<T>, b: seq<T>, rank: T -> int, c: int)
    ensures OfRank(a + b, rank, c) == OfRank(a, rank, c) + OfRank(b, rank, c)
  {
    if |a| > 0 {
      assert (a + b)[1..] == a[1..] + b;
      OfRankAppend(a[1..], b, rank, c);
    } else {
      assert a + b == b;
    }
  }

  lemma {:induction false} OfRankNone<T>(s: seq<T>, rank: T -> int, c: int)
    requires forall i :: 0 <= i < |s| ==> rank(s[i]) != c
    ensures OfRank(s, rank, c) == []
  {
    if |s| > 0 {
      OfRankNone(s[1..], rank, c);
    }
  }

  /** Kept as a lemma so that the proofs using it see only this one instance of associativity. */
  lemma AppendAssoc<T>(a: seq<T>, b: seq<T>, c: seq<T>)
    ensures a + (b + c) == (a + b) + c
  {
  }

  lemma SortedTail<T>(s: seq<T>, rank: T -> int)
    requires |s| > 0 && SortedDesc(s, rank)
    ensures SortedDesc(s[1..], rank)
  {
    forall i, j | 0 <= i < j < |s| - 1
      ensures rank(s[1..][i]) >= rank(s[1..][j])
    {
      assert s[1..][i] == s[i + 1] && s[1..][j] == s[j + 1];
    }
  }

  lemma OfRankCons<T>(y: T, t: seq<T>, rank: T -> int, c: int)
    ensures OfRank([y] + t, rank, c) == (if rank(y) == c then [y] else []) + OfRank(t, rank, c)
  {
    assert ([y] + t)[1..] == t;
  }

  lemma {:induction false} InsertOfRank<T>(x: T, s: seq<T>, rank: T -> int, c: int)
    requires SortedDesc(s, rank)
    ensures OfRank(Insert(x, s, rank), rank, c) == OfRank(s, rank, c) + (if rank(x) == c then [x] else [])
  {
    var mine := if rank(x) == c then [x] else [];
    if |s| == 0 {
      OfRankCons(x, [], rank, c);
    } else if rank(s[0]) >= rank(x) {
      var head := if rank(s[0]) == c then [s[0]] else [];
      SortedTail(s, rank);
      InsertOfRank(x, s[1..], rank, c);
      OfRankCons(s[0], Insert(x, s[1..], rank), rank, c);
      assert OfRank(Insert(x, s, rank), rank, c) == head + (OfRank(s[1..], rank, c) + mine);
      assert OfRank(s, rank, c) == head + OfRank(s[1..], rank, c);
      AppendAssoc(head, OfRank(s[1..], rank, c), mine);
    } else {
      OfRankCons(x, s, rank, c);
      if rank(x) == c {
        OfRankNone(s, rank, c);
      }
    }
  }

  /** The sort is stable: the elements of any one rank keep their original order. */
  lemma {:induction false} SortStable<T>(s: seq<T>, rank: T -> int, c: int)
    ensures OfRank(SortDesc(s, rank), rank, c) == OfRank(s, rank, c)
  {
    if |s| > 0 {
      var pre := s[..|s| - 1];
      assert s == pre + [s[|s| - 1]];
      SortStable(pre, rank, c);
      InsertOfRank(s[|s| - 1], SortDesc(pre, rank), rank, c);
      OfRankAppend(pre, [s[|s| - 1]], rank, c);
    }
  }

  lemma {:induction false} SumOfInsert<T>(x: T, s: seq<T>, rank: T -> int, f: T -> int)
    ensures SumOf(Insert(x, s, rank), f) == SumOf(s, f) + f(x)
  {
    if |s| > 0 && rank(s[0]) >= rank(x) {
      SumOfInsert(x, s[1..], rank, f);
      assert ([s[0]] + Insert(x, s[1..], rank))[1..] == Insert(x, s[1..], rank);
    } else if |s| > 0 {
      assert ([x] + s)[1..] == s;
    }
  }

  lemma SortDescSnoc<T>(s: seq<T>, rank: T -> int)
    requires |s| > 0
    ensures SortDesc(s, rank) == Insert(s[|s| - 1], SortDesc(s[..|s| - 1], rank), rank)
  {
  }

  lemma SumOfSnoc<T>(s: seq<T>, x: T, f: T -> int)
    ensures SumOf(s + [x], f) == SumOf(s, f) + f(x)
  {
    SumOfAppend(s, [x], f);
    assert SumOf([x], f) == f(x) + SumOf([x][1..], f);
  }

  lemma SumOfSortStep<T>(s: seq<T>, rank: T -> int, f: T -> int)
    requires |s| > 0
    ensures SumOf(SortDesc(s, rank), f) == SumOf(SortDesc(s[..|s| - 1], rank), f) + f(s[|s| - 1])
  {
    SortDescSnoc(s, rank);
    SumOfInsert(s[|s| - 1], SortDesc(s[..|s| - 1], rank), rank, f);
  }

  lemma SumOfLast<T>(s: seq<T>, f: T -> int)
    requires |s| > 0
    ensures SumOf(s, f) == SumOf(s[..|s| - 1], f) + f(s[|s| - 1])
  {
    SplitLast(s);
    SumOfSnoc(s[..|s| - 1], s[|s| - 1], f);
  }

  /** Sorting does not change a sum over the elements. */
  lemma {:induction false} SumOfSort<T>(s: seq<T>, rank: T -> int, f: T -> int)
    ensures SumOf(SortDesc(s, rank), f) == SumOf(s, f)
  {
    if |s| > 0 {
      SumOfSortStep(s, rank, f);
      SumOfLast(s, f);
      SumOfSort(s[..|s| - 1], rank, f);
    }
  }

  function Min(a: nat, b: nat): nat {
    if a <= b then a else b
  }

  /** `s.slice(0, n)`. */
  function Take<T>(s: seq<T>, n: nat): (r: seq<T>)
    ensures |r| == Min(n, |s|) && r == s[..|r|]
  {
    s[..Min(n, |s|)]
  }

  lemma PrefixOutranks<T>(sorted: seq<T>, k: nat, rank: T -> int)
    requires SortedDesc(sorted, rank) && k <= |sorted|
    ensures forall x, y :: x in sorted[..k] && y in sorted && y !in sorted[..k] ==> rank(x) >= rank(y)
  {
    forall x, y | x in sorted[..k] && y in sorted && y !in sorted[..k]
      ensures rank(x) >= rank(y)
    {
      var i :| 0 <= i < k && sorted[i] == x;
      var j :| 0 <= j < |sorted| && sorted[j] == y;
    }
  }

  lemma PrefixMultiset<T>(s: seq<T>, k: nat)
    requires k <= |s|
    ensures multiset(s[..k]) <= multiset(s)
  {
    assert s == s[..k] + s[k..];
  }

  lemma {:induction false} PrefixOfRank<T>(s: seq<T>, k: nat, rank: T -> int, c: int)
    requires k <= |s|
    ensures OfRank(s[..k], rank, c) <= OfRank(s, rank, c)
  {
    assert s == s[..k] + s[k..];
    OfRankAppend(s[..k], s[k..], rank, c);
  }

  /**
   * The first `n` of the sorted elements are the `n` of highest rank: at most `n`,
   * in non-increasing rank, drawn from `s`, none outranked by an element left out,
   * and within each rank they are the first ones of `s`.
   */
  lemma TopByRank<T>(s: seq<T>, rank: T -> int, n: nat)
    ensures var top := Take(SortDesc(s, rank), n);
      && |top| == Min(n, |s|)
      && SortedDesc(top, rank)
      && multiset(top) <= multiset(s)
      && (forall x, y :: x in top && y in s && y !in top ==> rank(x) >= rank(y))
      && (forall c :: OfRank(top, rank, c) <= OfRank(s, rank, c))
  {
    var sorted := SortDesc(s, rank);
    var k := Min(n, |s|);
    PrefixMultiset(sorted, k);
    PrefixOutranks(sorted, k, rank);
    forall y | y in s
      ensures y in sorted
    {
      assert y in multiset(sorted);
    }
    forall c
      ensures OfRank(sorted[..k], rank, c) <= OfRank(s, rank, c)
    {
      PrefixOfRank(sorted, k, rank, c);
      SortStable(s, rank, c);
    }
  }

  /** No element left out of the first `n` outranks one kept. */
  lemma TopOutranks<T>(s: seq<T>, rank: T -> int, n: nat, x: T, y: T)
    requires x in Take(SortDesc(s, rank), n) && y in s && y !in Take(SortDesc(s, rank), n)
    ensures rank(x) >= rank(y)
  {
    var sorted := SortDesc(s, rank);
    PrefixOutranks(sorted, Min(n, |s|), rank);
    assert y in multiset(sorted);
  }

  // A tally ranked by count.

  /** Some entry of `entries` has key `k`. */
  predicate HasKey<K(==)>(entries: seq<(K, nat)>, k: K) {
    exists i :: 0 <= i < |entries| && entries[i].0 == k
  }

  lemma RankedTallyEntry<K>(keys: seq<K>, i: nat)
    requires i < |SortDesc(Tally(keys), Second)|
    ensures var e := SortDesc(Tally(keys), Second)[i]; e.0 in keys && e.1 == Count(keys, e.0)
  {
    var t := Tally(keys);
    var e := SortDesc(t, Second)[i];
    assert e in multiset(SortDesc(t, Second));
    var k :| 0 <= k < |t| && t[k] == e;
    DedupFrom(keys, k);
  }

  lemma RankedTallyCovers<K>(keys: seq<K>, m: nat)
    requires m < |keys|
    ensures HasKey(SortDesc(Tally(keys), Second), keys[m])
  {
    var t := Tally(keys);
    var r := SortDesc(t, Second);
    DedupHas(keys, m);
    var k :| 0 <= k < |Dedup(keys)| && Dedup(keys)[k] == keys[m];
    assert t[k] in multiset(r);
    var i :| 0 <= i < |r| && r[i] == t[k];
    assert r[i].0 == keys[m];
  }

  /**
   * The entries of a counting `Map` over `keys`, sorted by descending count: in
   * non-increasing order, each a key of `keys` with its number of occurrences, every
   * key present, and the counts adding up to `|keys|`.
   */
  lemma RankedTally<K>(keys: seq<K>)
    ensures var r := SortDesc(Tally(keys), Second);
      && SortedDesc(r, Second)
      && SumOf(r, Second) == |keys|
      && (forall i :: 0 <= i < |r| ==> r[i].0 in keys && r[i].1 == Count(keys, r[i].0))
      && (forall m :: 0 <= m < |keys| ==> HasKey(r, keys[m]))
  {
    var r := SortDesc(Tally(keys), Second);
    SumOfSort(Tally(keys), Second, Second);
    TallySum(keys);
    forall i | 0 <= i < |r|
      ensures r[i].0 in keys && r[i].1 == Count(keys, r[i].0)
    {
      RankedTallyEntry(keys, i);
    }
    forall m | 0 <= m < |keys|
      ensures HasKey(r, keys[m])
    {
      RankedTallyCovers(keys, m);
    }
  }

  // Mapping, selecting and grouping.

  /** `s.map(f)`. */
  function MapSeq<A, B>(f: A -> B, s: seq<A>): (r: seq<B>)
    ensures |r| == |s|
    ensures forall i :: 0 <= i < |s| ==> r[i] == f(s[i])
  {
    seq(|s|, i requires 0 <= i < |s| => f(s[i]))
  }

  lemma MapSeqAppend<A, B>(f: A -> B, a: seq<A>, b: seq<A>)
    ensures MapSeq(f, a + b) == MapSeq(f, a) + MapSeq(f, b)
  {
  }

  /** The items whose key is `k`, in input order. */
  function Select<T, K(==)>(s: seq<T>, key: T -> K, k: K): (r: seq<T>)
    ensures |r| == Count(MapSeq(key, s), k)
    ensures forall i :: 0 <= i < |r| ==> r[i] in s && key(r[i]) == k
  {
    if |s| == 0 then []
    else
      assert s == s[..|s| - 1] + [s[|s| - 1]];
      assert MapSeq(key, s) == MapSeq(key, s[..|s| - 1]) + [key(s[|s| - 1])];
      CountAppend(MapSeq(key, s[..|s| - 1]), key(s[|s| - 1]), k);
      Select(s[..|s| - 1], key, k) + (if key(s[|s| - 1]) == k then [s[|s| - 1]] else [])
  }

  lemma SelectAppend<T, K>(s: seq<T>, x: T, key: T -> K, k: K)
    ensures Select(s + [x], key, k) == Select(s, key, k) + (if key(x) == k then [x] else [])
  {
    assert (s + [x])[..|s|] == s;
  }

  /** Every item lies in the group of its own key. */
  lemma {:induction false} SelectHoldsItem<T, K>(s: seq<T>, key: T -> K, m: nat)
    requires m < |s|
    ensures s[m] in Select(s, key, key(s[m]))
  {
    var pre := s[..|s| - 1];
    assert s == pre + [s[|s| - 1]];
    SelectAppend(pre, s[|s| - 1], key, key(s[m]));
    if m < |s| - 1 {
      assert pre[m] == s[m];
      SelectHoldsItem(pre, key, m);
    }
  }

  /** Total size of the groups of the keys `ks`. */
  function GroupSizes<T, K(==)>(ks: seq<K>, s: seq<T>, key: T -> K): int {
    if |ks| == 0 then 0 else |Select(s, key, ks[0])| + GroupSizes(ks[1..], s, key)
  }

  lemma {:induction false} GroupSizesTally<T, K>(ks: seq<K>, s: seq<T>, key: T -> K)
    ensures GroupSizes(ks, s, key) == SumOf(TallyOf(ks, MapSeq(key, s)), Second)
  {
    if |ks| > 0 {
      GroupSizesTally(ks[1..], s, key);
      assert TallyOf(ks, MapSeq(key, s))[1..] == TallyOf(ks[1..], MapSeq(key, s));
    }
  }

  /** The groups partition the items: each item is in its key's group, and the sizes add up. */
  lemma GroupsPartition<T, K>(items: seq<T>, key: T -> K)
    ensures forall m :: 0 <= m < |items| ==> items[m] in Select(items, key, key(items[m]))
    ensures GroupSizes(Dedup(MapSeq(key, items)), items, key) == |items|
  {
    forall m | 0 <= m < |items|
      ensures items[m] in Select(items, key, key(items[m]))
    {
      SelectHoldsItem(items, key, m);
    }
    GroupSizesTally(Dedup(MapSeq(key, items)), items, key);
    TallySum(MapSeq(key, items));
  }

  ghost predicate Grouped<T, K(!new)>(prefix: seq<T>, key: T -> K, order: seq<K>, groups: map<K, seq<T>>) {
    && order == Dedup(MapSeq(key, prefix))
    && (forall k :: k in groups <==> k in order)
    && (forall k :: k in groups ==> groups[k] == Select(prefix, key, k))
  }


  lemma MapSeqSnoc<A, B>(f: A -> B, s: seq<A>, x: A)
    ensures MapSeq(f, s + [x]) == MapSeq(f, s) + [f(x)]
  {
  }

  /** A key the groups lack has no item yet, so its group starts empty. */
  lemma GroupAbsent<T, K(!new)>(prefix: seq<T>, key: T -> K, order: seq<K>, groups: map<K, seq<T>>, k: K)
    requires Grouped(prefix, key, order, groups)
    requires k !in groups
    ensures k !in Dedup(MapSeq(key, prefix))
    ensures Select(prefix, key, k) == []
  {
    DedupMembers(MapSeq(key, prefix), k);
    CountPositive(MapSeq(key, prefix), k);
  }

  /** The key order after one more item: its key joins the end the first time it is seen. */
  lemma GroupStepOrder<T, K(!new)>(prefix: seq<T>, item: T, key: T -> K, order: seq<K>, groups: map<K, seq<T>>)
    requires Grouped(prefix, key, order, groups)
    ensures Dedup(MapSeq(key, prefix + [item])) == if key(item) in groups then order else order + [key(item)]
  {
    MapSeqSnoc(key, prefix, item);
    DedupAppend(MapSeq(key, prefix), key(item));
  }

  /** The groups after one more item: the item joins the end of its key's group. */
  lemma GroupStepSelect<T, K(!new)>(prefix: seq<T>, item: T, key: T -> K, groups: map<K, seq<T>>, groups': map<K, seq<T>>)
    requires forall k :: k in groups ==> groups[k] == Select(prefix, key, k)
    requires key(item) !in groups ==> Select(prefix, key, key(item)) == []
    requires groups' == groups[key(item) := (if key(item) in groups then groups[key(item)] else []) + [item]]
    ensures forall k :: k in groups' ==> groups'[k] == Select(prefix + [item], key, k)
  {
    forall k | k in groups'
      ensures groups'[k] == Select(prefix + [item], key, k)
    {
      SelectAppend(prefix, item, key, k);
    }
  }

  lemma GroupStep<T, K(!new)>(prefix: seq<T>, item: T, key: T -> K, order: seq<K>, groups: map<K, seq<T>>)
    requires Grouped(prefix, key, order, groups)
    ensures var k := key(item);
      Grouped(prefix + [item], key,
        if k in groups then order else order + [k],
        groups[k := (if k in groups then groups[k] else []) + [item]])
  {
    var k := key(item);
    GroupStepOrder(prefix, item, key, order, groups);
    if k !in groups {
      GroupAbsent(prefix, key, order, groups, k);
    }
    GroupStepSelect(prefix, item, key, groups, groups[k := (if k in groups then groups[k] else []) + [item]]);
  }

  lemma GroupStepAt<T, K(!new)>(items: seq<T>, i: nat, key: T -> K, order: seq<K>, groups: map<K, seq<T>>)
    requires i < |items| && Grouped(items[..i], key, order, groups)
    ensures var k := key(items[i]);
      Grouped(items[..i + 1], key,
        if k in groups then order else order + [k],
        groups[k := (if k in groups then groups[k] else []) + [items[i]]])
  {
    GroupStep(items[..i], items[i], key, order, groups);
    PrefixSnoc(items, i);
  }

  /**
   * `groupBy(items, getKey)`: a `Map` from each key to the items that have it, in
   * input order. `order` is the `Map`'s iteration order, the order in which keys
   * were first inserted.
   */
  method GroupBy<T, K(==, !new)>(items: seq<T>, key: T -> K) returns (order: seq<K>, groups: map<K, seq<T>>)
    ensures order == Dedup(MapSeq(key, items))
    ensures forall k :: k in groups <==> k in order
    ensures forall k :: k in groups ==> groups[k] == Select(items, key, k)
  {
    order := [];
    groups := map[];
    var i := 0;
    while i < |items|
      invariant 0 <= i <= |items|
      invariant Grouped(items[..i], key, order, groups)
    {
      var item := items[i];
      var k := key(item);
      var order' := if k in groups then order else order + [k];
      var groups' := groups[k := (if k in groups then groups[k] else []) + [item]];
      GroupStepAt(items, i, key, order, groups);
      order, groups := order', groups';
      i := i + 1;
    }
    assert items[..i] == items;
  }

  // A counting `Map`, held as its entries in insertion order.

  /** The position of key `k` among the entries, if it is there. */
  function KeyIndex<K(==)>(entries: seq<(K, nat)>, k: K): (r: Option<nat>)
    ensures r.Some? ==> r.value < |entries| && entries[r.value].0 == k
    ensures r.None? ==> forall j :: 0 <= j < |entries| ==> entries[j].0 != k
  {
    if |entries| == 0 then None
    else if entries[0].0 == k then Some(0)
    else
      var r := KeyIndex(entries[1..], k);
      if r.Some? then Some(r.value + 1) else None
  }

  /** The entries with the count at position `i` one higher. */
  function Bump<K>(entries: seq<(K, nat)>, i: nat): seq<(K, nat)>
    requires i < |entries|
  {
    entries[i := (entries[i].0, entries[i].1 + 1)]
  }

  /** `counts.set(k, (counts.get(k) || 0) + 1)`. */
  function Increment<K(==)>(entries: seq<(K, nat)>, k: K): seq<(K, nat)> {
    var i := KeyIndex(entries, k);
    if i.Some? then Bump(entries, i.value) else entries + [(k, 1)]
  }

  lemma TallyBumpAt<K>(d: seq<K>, s: seq<K>, x: K, i: nat, j: nat)
    requires i < |d| && d[i] == x && j < |d| && (j != i ==> d[j] != x)
    ensures TallyOf(d, s + [x])[j] == if j == i then (x, Count(s, x) + 1) else (d[j], Count(s, d[j]))
  {
    assert TallyOf(d, s + [x])[j] == (d[j], Count(s + [x], d[j]));
    if j == i {
      CountAppend(s, x, x);
    } else {
      CountAppend(s, x, d[j]);
    }
  }

  /** Bumping the count of the key at `i` gives the tally with one more `x`. */
  lemma TallyBump<K>(d: seq<K>, s: seq<K>, x: K, i: nat)
    requires Distinct(d) && i < |d| && d[i] == x
    ensures Bump(TallyOf(d, s), i) == TallyOf(d, s + [x])
  {
    var t := TallyOf(d, s);
    var inc := Bump(t, i);
    var u := TallyOf(d, s + [x]);
    forall j | 0 <= j < |d|
      ensures inc[j] == u[j]
    {
      if j != i {
        assert d[j] != d[i];
      }
      TallyBumpAt(d, s, x, i, j);
    }
  }

  /** Incrementing a key the entries hold bumps its first entry. */
  lemma IncrementKeyed<K>(t: seq<(K, nat)>, x: K, i: nat)
    requires i < |t| && t[i].0 == x
    ensures KeyIndex(t, x).Some? && Increment(t, x) == Bump(t, KeyIndex(t, x).value)
  {
  }

  lemma TallyIncrementPresent<K>(s: seq<K>, x: K)
    requires x in Dedup(s)
    ensures Increment(Tally(s), x) == Tally(s + [x])
  {
    var d := Dedup(s);
    var t := TallyOf(d, s);
    assert Tally(s + [x]) == TallyOf(d, s + [x]) by {
      DedupAppend(s, x);
    }
    var i: nat :| i < |d| && d[i] == x;
    IncrementKeyed(t, x, i);
    var k := KeyIndex(t, x).value;
    TallyBump(d, s, x, k);
  }

  lemma CountOfNew<K>(s: seq<K>, x: K)
    requires x !in Dedup(s)
    ensures Count(s + [x], x) == 1
  {
    assert x !in s by {
      forall i | 0 <= i < |s|
        ensures s[i] != x
      {
        DedupHas(s, i);
      }
    }
    CountPositive(s, x);
    CountAppend(s, x, x);
  }

  lemma TallyOfSame<K>(d: seq<K>, s: seq<K>, x: K)
    requires x !in d
    ensures TallyOf(d, s + [x]) == TallyOf(d, s)
  {
    forall j | 0 <= j < |d|
      ensures TallyOf(d, s + [x])[j] == TallyOf(d, s)[j]
    {
      CountAppend(s, x, d[j]);
    }
  }

  lemma TallyIncrementAbsent<K>(s: seq<K>, x: K)
    requires x !in Dedup(s)
    ensures Increment(Tally(s), x) == Tally(s + [x])
  {
    var d := Dedup(s);
    var t := TallyOf(d, s);
    DedupAppend(s, x);
    assert KeyIndex(t, x).None?;
    assert Increment(t, x) == t + [(x, 1)];
    TallyOfSame(d, s, x);
    CountOfNew(s, x);
    TallyOfSnocKey(d, x, s + [x]);
  }

  lemma TallyOfSnocKey<K>(ks: seq<K>, k: K, s: seq<K>)
    ensures TallyOf(ks + [k], s) == TallyOf(ks, s) + [(k, Count(s, k))]
  {
    var l := TallyOf(ks + [k], s);
    var r := TallyOf(ks, s) + [(k, Count(s, k))];
    forall j | 0 <= j < |l|
      ensures l[j] == r[j]
    {
      if j < |ks| {
        assert (ks + [k])[j] == ks[j];
      }
    }
  }

  /** Counting one more item into the tally of `s` gives the tally of `s + [x]`. */
  lemma TallyIncrement<K>(s: seq<K>, x: K)
    ensures Increment(Tally(s), x) == Tally(s + [x])
  {
    if x in Dedup(s) {
      TallyIncrementPresent(s, x);
    } else {
      TallyIncrementAbsent(s, x);
    }
  }

  /** The first element of rank `c` comes no later than any element of rank `c`. */
  lemma {:induction false} OfRankFirst<T>(s: seq<T>, rank: T -> int, c: int, j: nat)
    requires j < |s| && rank(s[j]) == c
    ensures |OfRank(s, rank, c)| > 0
    ensures exists j' :: 0 <= j' <= j && OfRank(s, rank, c)[0] == s[j']
  {
    if rank(s[0]) != c {
      OfRankFirst(s[1..], rank, c, j - 1);
      var j' :| 0 <= j' <= j - 1 && OfRank(s[1..], rank, c)[0] == s[1..][j'];
      assert OfRank(s, rank, c)[0] == s[j' + 1];
    } else {
      assert OfRank(s, rank, c)[0] == s[0];
    }
  }

  lemma TallyNonEmpty<K>(keys: seq<K>)
    requires |keys| > 0
    ensures |SortDesc(Tally(keys), Second)| == |Tally(keys)| > 0
  {
    var t := Tally(keys);
    var r := SortDesc(t, Second);
    DedupHas(keys, 0);
    assert |r| == |multiset(r)| == |multiset(t)| == |t|;
  }

  lemma {:induction false} PluralityTop<K>(keys: seq<K>)
    requires |keys| > 0
    ensures |SortDesc(Tally(keys), Second)| > 0
    ensures var top := SortDesc(Tally(keys), Second)[0];
      exists i :: 0 <= i < |Dedup(keys)| && Dedup(keys)[i] == top.0 && top.1 == Count(keys, top.0)
  {
    TallyNonEmpty(keys);
    var t := Tally(keys);
    var top := SortDesc(t, Second)[0];
    assert top in multiset(SortDesc(t, Second));
    var i :| 0 <= i < |t| && t[i] == top;
    assert Dedup(keys)[i] == top.0;
  }

  lemma PluralityMax<K>(keys: seq<K>, k: K)
    requires |keys| > 0 && k in keys
    ensures |SortDesc(Tally(keys), Second)| > 0
    ensures Count(keys, k) <= SortDesc(Tally(keys), Second)[0].1
  {
    TallyNonEmpty(keys);
    var d := Dedup(keys);
    var t := Tally(keys);
    var r := SortDesc(t, Second);
    DedupMembers(keys, k);
    var jk :| 0 <= jk < |d| && d[jk] == k;
    assert t[jk] in multiset(r);
    var q :| 0 <= q < |r| && r[q] == t[jk];
    if q > 0 {
      assert Second(r[0]) >= Second(r[q]);
    }
  }

  lemma PluralityFirst<K>(keys: seq<K>, k: K, m: nat)
    requires m < |keys| && keys[m] == k
    requires |SortDesc(Tally(keys), Second)| > 0
    requires var top := SortDesc(Tally(keys), Second)[0]; k != top.0 && Count(keys, k) == top.1
    ensures SortDesc(Tally(keys), Second)[0].0 in keys[..m]
  {
    var d := Dedup(keys);
    var t := Tally(keys);
    var r := SortDesc(t, Second);
    var top := r[0];
    DedupHas(keys, m);
    var jk :| 0 <= jk < |d| && d[jk] == k;
    OfRankFirst(t, Second, top.1, jk);
    SortStable(t, Second, top.1);
    assert OfRank(r, Second, top.1)[0] == top;
    var j' :| 0 <= j' <= jk && OfRank(t, Second, top.1)[0] == t[j'];
    assert d[j'] == top.0;
    DedupOrder(keys, j', jk, m);
  }

  /**
   * The entry a stable descending sort puts first in the tally of a non-empty `keys`
   * is a plurality key: it occurs in `keys`, with its count, no key occurs more
   * often, and every other key with as many occurrences first appears later.
   */
  lemma Plurality<K>(keys: seq<K>)
    requires |keys| > 0
    ensures |SortDesc(Tally(keys), Second)| > 0
    ensures var top := SortDesc(Tally(keys), Second)[0];
      && top.0 in keys
      && top.1 == Count(keys, top.0)
      && (forall k :: Count(keys, k) <= top.1)
      && (forall k, m :: 0 <= m < |keys| && keys[m] == k && k != top.0 && Count(keys, k) == top.1 ==> top.0 in keys[..m])
  {
    PluralityTop(keys);
    var top := SortDesc(Tally(keys), Second)[0];
    var i :| 0 <= i < |Dedup(keys)| && Dedup(keys)[i] == top.0;
    DedupFrom(keys, i);
    forall k
      ensures Count(keys, k) <= top.1
    {
      CountPositive(keys, k);
      if k in keys {
        PluralityMax(keys, k);
      }
    }
    forall k, m | 0 <= m < |keys| && keys[m] == k && k != top.0 && Count(keys, k) == top.1
      ensures top.0 in keys[..m]
    {
      PluralityFirst(keys, k, m);
    }
  }
}

