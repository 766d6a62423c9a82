/**
 * The fragment of SQL the read layer uses, over tables given as sequences of rows:
 * WHERE (Filter), COUNT(*) and SUM (SumOf, SqlSum), ORDER BY (Sort with a comparator),
 * LIMIT (Take), LEFT JOIN and JOIN (LeftJoin, InnerJoin), and text ordering (LexLe).
 */
module Relational {
  import opened Wrappers

  // ---------------------------------------------------------------- WHERE

  /** The rows of `s` that satisfy `p`, in their original order. */
  function Filter<T(!new)>(s: seq<T>, p: T -> bool): (r: seq<T>)
    ensures |r| <= |s|
    ensures forall x :: x in r <==> x in s && p(x)
    ensures multiset(r) <= multiset(s)
  {
    if s == [] then []
    else
      assert s == [s[0]] + s[1..];
      (if p(s[0]) then [s[0]] else []) + Filter(s[1..], p)
  }

  lemma {:induction false} FilterAppend<T(!new)>(s: seq<T>, t: seq<T>, p: T -> bool)
    ensures Filter(s + t, p) == Filter(s, p) + Filter(t, p)
  {
    if s == [] {
      assert s + t == t;
    } else {
      assert (s + t)[1..] == s[1..] + t;
      FilterAppend(s[1..], t, p);
    }
  }

  lemma {:induction false} FilterAll<T(!new)>(s: seq<T>, p: T -> bool)
    requires forall x :: x in s ==> p(x)
    ensures Filter(s, p) == s
  {
    if s != [] {
      FilterAll(s[1..], p);
    }
  }

  /** WHERE keeps every copy of a row that passes and no copy of one that fails. */
  lemma {:induction false} FilterMultiplicity<T(!new)>(s: seq<T>, p: T -> bool)
    ensures forall x :: multiset(Filter(s, p))[x] == if p(x) then multiset(s)[x] else 0
  {
    if s != [] {
      FilterMultiplicity(s[1..], p);
      assert s == [s[0]] + s[1..];
    }
  }

  /** A sub-multiset has no more elements. */
  lemma SubMultisetSize<T>(a: multiset<T>, b: multiset<T>)
    requires a <= b
    ensures |a| <= |b|
  {
    assert b == a + (b - a);
  }

  /** WHERE keeps no more copies of a row from fewer copies of the rows. */
  lemma FilterSubMultiset<T(!new)>(s: seq<T>, t: seq<T>, p: T -> bool)
    requires multiset(s) <= multiset(t)
    ensures multiset(Filter(s, p)) <= multiset(Filter(t, p))
  {
    FilterMultiplicity(s, p);
    FilterMultiplicity(t, p);
    forall x ensures multiset(Filter(s, p))[x] <= multiset(Filter(t, p))[x] {
      assert multiset(s)[x] <= multiset(t)[x];
    }
  }

  /** Over fewer copies of the rows, WHERE keeps no more rows; over the same rows, just as many. */
  lemma FilterCountMonotone<T(!new)>(s: seq<T>, t: seq<T>, p: T -> bool)
    requires multiset(s) <= multiset(t)
    ensures |Filter(s, p)| <= |Filter(t, p)|
    ensures multiset(s) == multiset(t) ==> |Filter(s, p)| == |Filter(t, p)|
  {
    FilterSubMultiset(s, t, p);
    SubMultisetSize(multiset(Filter(s, p)), multiset(Filter(t, p)));
    if multiset(s) == multiset(t) {
      FilterSubMultiset(t, s, p);
      SubMultisetSize(multiset(Filter(t, p)), multiset(Filter(s, p)));
    }
  }

  lemma {:induction false} FilterNone<T(!new)>(s: seq<T>, p: T -> bool)
    requires forall x :: x in s ==> !p(x)
    ensures Filter(s, p) == []
  {
    if s != [] {
      FilterNone(s[1..], p);
    }
  }

  // ---------------------------------------------------------------- COUNT(*) and SUM

  /** The sum of `f` over the rows of `s`. */
  function SumOf<T(!new)>(s: seq<T>, f: T -> int): int {
    if s == [] then 0 else f(s[0]) + SumOf(s[1..], f)
  }

  lemma {:induction false} SumOfAppend<T(!new)>(s: seq<T>, t: seq<T>, f: T -> int)
    ensures SumOf(s + t, f) == SumOf(s, f) + SumOf(t, f)
  {
    if s == [] {
      assert s + t == t;
    } else {
      assert (s + t)[1..] == s[1..] + t;
      SumOfAppend(s[1..], t, f);
    }
  }

  /** SQL SUM: NULL over no rows, the arithmetic sum otherwise. */
  function SqlSum<T(!new)>(s: seq<T>, f: T -> int): (r: Option<int>)
    ensures r.None? <==> s == []
    ensures r.Some? ==> r.value == SumOf(s, f)
  {
    if s == [] then None else Some(SumOf(s, f))
  }

  /** Falling back to 0 for a NULL sum never changes the total: it is the empty sum. */
  lemma SqlSumOrZero<T(!new)>(s: seq<T>, f: T -> int)
    ensures SqlSum(s, f).GetOr(0) == SumOf(s, f)
  {
  }

  // ---------------------------------------------------------------- LIMIT

  /** LIMIT n: the first `n` rows, or all of them when there are fewer. */
  function Take<T(!new)>(s: seq<T>, n: nat): (r: seq<T>)
    ensures |r| == if n < |s| then n else |s|
    ensures r == s[..|r|]
    ensures multiset(r) <= multiset(s)
  {
    if n < |s| then
      assert s == s[..n] + s[n..];
      s[..n]
    else s
  }

  // ---------------------------------------------------------------- ORDER BY

  /** `le` orders any two values and is transitive: a valid ORDER BY key comparison. */
  ghost predicate TotalPreorder<T(!new)>(le: (T, T) -> bool) {
    (forall a, b :: le(a, b) || le(b, a)) &&
    (forall a, b, c :: le(a, b) && le(b, c) ==> le(a, c))
  }

  /** Every row comes no later than every row after it under `le`. */
  predicate Sorted<T(!new)>(s: seq<T>, le: (T, T) -> bool) {
    forall i, j :: 0 <= i < j < |s| ==> le(s[i], s[j])
  }

  function Insert<T(!new)>(x: T, s: seq<T>, le: (T, T) -> bool): (r: seq<T>)
    ensures |r| == |s| + 1
    ensures multiset(r) == multiset(s) + multiset{x}
  {
    if s == [] then [x]
    else if le(x, s[0]) then [x] + s
    else
      assert s == [s[0]] + s[1..];
      [s[0]] + Insert(x, s[1..], le)
  }

  /**
   * ORDER BY: the rows of `s` rearranged by `le`. Rows that `le` ranks equal keep their
   * input order here; SQL leaves that order open, so only sortedness and permutation
   * are stated about it.
   */
  function Sort<T(!new)>(s: seq<T>, le: (T, T) -> bool): (r: seq<T>)
    ensures |r| == |s|
    ensures multiset(r) == multiset(s)
  {
    if s == [] then []
    else
      assert s == [s[0]] + s[1..];
      Insert(s[0], Sort(s[1..], le), le)
  }

  lemma {:induction false} InsertSorted<T(!new)>(x: T, s: seq<T>, le: (T, T) -> bool)
    requires TotalPreorder(le)
    requires Sorted(s, le)
    ensures Sorted(Insert(x, s, le), le)
  {
    if s == [] {
    } else if le(x, s[0]) {
      var r := [x] + s;
      forall i, j | 0 <= i < j < |r| ensures le(r[i], r[j]) {
        if i == 0 && j > 1 {
          assert le(x, s[0]) && le(s[0], s[j - 1]);
        }
      }
    } else {
      assert le(s[0], x);
      var t := Insert(x, s[1..], le);
      InsertSorted(x, s[1..], le);
      var r := [s[0]] + t;
      forall i, j | 0 <= i < j < |r| ensures le(r[i], r[j]) {
        if i == 0 {
          assert r[j] in multiset(t);
          assert r[j] == x || r[j] in multiset(s[1..]);
          if r[j] != x {
            var k :| 0 <= k < |s[1..]| && s[1..][k] == r[j];
            assert s[k + 1] == r[j];
          }
        } else {
          assert r[i] == t[i - 1] && r[j] == t[j - 1];
        }
      }
    }
  }

  lemma {:induction false} SortSorted<T(!new)>(s: seq<T>, le: (T, T) -> bool)
    requires TotalPreorder(le)
    ensures Sorted(Sort(s, le), le)
  {
    if s != [] {
      SortSorted(s[1..], le);
      InsertSorted(s[0], Sort(s[1..], le), le);
    }
  }

  /** ORDER BY key ASC. */
  function Ascending<T(!new)>(key: T -> int): (T, T) -> bool {
    (a, b) => key(a) <= key(b)
  }

  /** ORDER BY key DESC. */
  function Descending<T(!new)>(key: T -> int): (T, T) -> bool {
    (a, b) => key(a) >= key(b)
  }

  lemma KeyOrdersArePreorders<T(!new)>(key: T -> int)
    ensures TotalPreorder(Ascending(key)) && TotalPreorder(Descending(key))
  {
  }

  /** ORDER BY ... LIMIT n keeps only rows of the input. */
  lemma SortTakeMembers<T(!new)>(s: seq<T>, le: (T, T) -> bool, n: nat)
    ensures forall x :: x in Take(Sort(s, le), n) ==> x in s
  {
    var r := Take(Sort(s, le), n);
    forall x | x in r ensures x in s {
      assert x in multiset(r);
    }
  }

  /** ORDER BY ... LIMIT n: the rows kept are in order. */
  lemma SortTakeSorted<T(!new)>(s: seq<T>, le: (T, T) -> bool, n: nat)
    requires TotalPreorder(le)
    ensures Sorted(Take(Sort(s, le), n), le)
  {
    SortSorted(s, le);
  }

  /** ORDER BY key DESC LIMIT n: no kept row has a larger key than an earlier one. */
  lemma {:induction false} DescendingTake<T(!new)>(s: seq<T>, key: T -> int, n: nat)
    ensures var r := Take(Sort(s, Descending(key)), n);
      forall i, j :: 0 <= i < j < |r| ==> key(r[i]) >= key(r[j])
  {
    KeyOrdersArePreorders(key);
    SortTakeSorted(s, Descending(key), n);
    var r := Take(Sort(s, Descending(key)), n);
    forall i, j | 0 <= i < j < |r| ensures key(r[i]) >= key(r[j]) {
      assert Descending(key)(r[i], r[j]);
    }
  }

  /**
   * `r` is what `rows ORDER BY key DESC LIMIT n` may return: rows of the input, each at most as
   * often as it occurs there, and no row left out has a larger key than a row kept.
   */
  ghost predicate TopByKey<T(!new)>(r: seq<T>, rows: seq<T>, key: T -> int) {
    multiset(r) <= multiset(rows) &&
    forall x, y :: x in multiset(r) && y in multiset(rows) - multiset(r) ==> key(x) >= key(y)
  }

  /** Splitting a sequence at `k` splits its multiset. */
  lemma MultisetSplit<T>(s: seq<T>, k: nat)
    requires k <= |s|
    ensures multiset(s) - multiset(s[..k]) == multiset(s[k..])
  {
    assert s == s[..k] + s[k..];
  }

  /** In a sorted sequence every row before `k` is ordered before every row from `k` on. */
  lemma SortedSplit<T(!new)>(s: seq<T>, le: (T, T) -> bool, k: nat)
    requires Sorted(s, le) && k <= |s|
    ensures forall x, y :: x in s[..k] && y in s[k..] ==> le(x, y)
  {
    forall x, y | x in s[..k] && y in s[k..] ensures le(x, y) {
      var i :| 0 <= i < k && s[..k][i] == x;
      var j :| 0 <= j < |s| - k && s[k..][j] == y;
      assert s[i] == x && s[k + j] == y;
    }
  }

  /** ORDER BY key DESC LIMIT n keeps the rows with the largest keys. */
  lemma {:induction false} DescendingTakeKeepsLargest<T(!new)>(rows: seq<T>, key: T -> int, n: nat)
    ensures TopByKey(Take(Sort(rows, Descending(key)), n), rows, key)
  {
    var s := Sort(rows, Descending(key));
    var r := Take(s, n);
    var k := |r|;
    KeyOrdersArePreorders(key);
    SortSorted(rows, Descending(key));
    MultisetSplit(s, k);
    SortedSplit(s, Descending(key), k);
    assert r == s[..k];
    forall x, y | x in multiset(r) && y in multiset(rows) - multiset(r)
      ensures key(x) >= key(y)
    {
      assert x in s[..k] && y in s[k..];
      assert Descending(key)(x, y);
    }
  }

  /** ORDER BY key ASC: no row has a smaller key than an earlier one. */
  lemma {:induction false} AscendingSort<T(!new)>(s: seq<T>, key: T -> int)
    ensures var r := Sort(s, Ascending(key));
      forall i, j :: 0 <= i < j < |r| ==> key(r[i]) <= key(r[j])
  {
    KeyOrdersArePreorders(key);
    SortSorted(s, Ascending(key));
    var r := Sort(s, Ascending(key));
    forall i, j | 0 <= i < j < |r| ensures key(r[i]) <= key(r[j]) {
      assert Ascending(key)(r[i], r[j]);
    }
  }

  // ---------------------------------------------------------------- text ordering

  /** Ascending order of text columns: lexicographic by character code. */
  predicate LexLe(a: string, b: string) {
    a == [] || (b != [] && (a[0] < b[0] || (a[0] == b[0] && LexLe(a[1..], b[1..]))))
  }

  lemma {:induction false} LexLeTotal(a: string, b: string)
    ensures LexLe(a, b) || LexLe(b, a)
  {
    if a != [] && b != [] && a[0] == b[0] {
      LexLeTotal(a[1..], b[1..]);
    }
  }

  lemma {:induction false} LexLeTransitive(a: string, b: string, c: string)
    requires LexLe(a, b) && LexLe(b, c)
    ensures LexLe(a, c)
  {
    if a != [] && a[0] == b[0] && b[0] == c[0] {
      LexLeTransitive(a[1..], b[1..], c[1..]);
    }
  }

  /** Two texts each at most the other are the same text. */
  lemma {:induction false} LexLeAntisymmetric(a: string, b: string)
    requires LexLe(a, b) && LexLe(b, a)
    ensures a == b
  {
    if a != [] {
      LexLeAntisymmetric(a[1..], b[1..]);
      assert a == [a[0]] + a[1..] && b == [b[0]] + b[1..];
    }
  }

  // ---------------------------------------------------------------- keys and joins

  /** No two rows share a key: a primary key column. */
  predicate UniqueKeys<T(!new)>(s: seq<T>, key: T -> int) {
    forall i, j :: 0 <= i < j < |s| ==> key(s[i]) != key(s[j])
  }

  /** The rows of `rs` that the join condition pairs with `a`. */
  function Matches<A(!new), B(!new)>(a: A, rs: seq<B>, on: (A, B) -> bool): (r: seq<B>)
    ensures forall b :: b in r <==> b in rs && on(a, b)
  {
    Filter(rs, b => on(a, b))
  }

  /** The row of `rs` a one-to-one join pairs with `a`, or NULL. */
  function FirstMatch<A(!new), B(!new)>(a: A, rs: seq<B>, on: (A, B) -> bool): (r: Option<B>)
    ensures r.None? <==> forall b :: b in rs ==> !on(a, b)
    ensures r.Some? ==> r.value in rs && on(a, r.value)
  {
    var ms := Matches(a, rs, on);
    if ms == [] then None
    else
      assert ms[0] in ms;
      Some(ms[0])
  }

  /** No row on the left is paired with two different rows on the right. */
  predicate AtMostOneMatch<A(!new), B(!new)>(ls: seq<A>, rs: seq<B>, on: (A, B) -> bool) {
    forall k, i, j :: 0 <= k < |ls| && 0 <= i < j < |rs| && on(ls[k], rs[i]) ==> !on(ls[k], rs[j])
  }

  lemma {:induction false} AtMostOneMatchCount<A(!new), B(!new)>(a: A, rs: seq<B>, on: (A, B) -> bool)
    requires forall i, j :: 0 <= i < j < |rs| && on(a, rs[i]) ==> !on(a, rs[j])
    ensures |Matches(a, rs, on)| <= 1
  {
    if rs != [] {
      AtMostOneMatchCount(a, rs[1..], on);
      if on(a, rs[0]) {
        forall b | b in rs[1..] ensures !on(a, b) {
          var k :| 0 <= k < |rs[1..]| && rs[1..][k] == b;
          assert rs[k + 1] == b;
        }
        FilterNone(rs[1..], b => on(a, b));
      }
    }
  }

  /** The rows LEFT JOIN produces for one left row: one per match, or one NULL-padded row. */
  function LeftJoinRow<A(!new), B(!new), C(!new)>(a: A, rs: seq<B>, on: (A, B) -> bool, combine: (A, Option<B>) -> C): seq<C> {
    var ms := Matches(a, rs, on);
    if ms == [] then [combine(a, None)]
    else seq(|ms|, k requires 0 <= k < |ms| => combine(a, Some(ms[k])))
  }

  /** `ls LEFT JOIN rs ON on`, each output row built by `combine`. */
  function LeftJoin<A(!new), B(!new), C(!new)>(ls: seq<A>, rs: seq<B>, on: (A, B) -> bool, combine: (A, Option<B>) -> C): seq<C> {
    if ls == [] then [] else LeftJoinRow(ls[0], rs, on, combine) + LeftJoin(ls[1..], rs, on, combine)
  }

  /** A left join never loses a left row, and adds rows only for extra matches. */
  lemma {:induction false} LeftJoinNeverDrops<A(!new), B(!new), C(!new)>(ls: seq<A>, rs: seq<B>, on: (A, B) -> bool, combine: (A, Option<B>) -> C)
    ensures |LeftJoin(ls, rs, on, combine)| >= |ls|
  {
    if ls != [] {
      LeftJoinNeverDrops(ls[1..], rs, on, combine);
    }
  }

  lemma LeftJoinRowSingle<A(!new), B(!new), C(!new)>(a: A, rs: seq<B>, on: (A, B) -> bool, combine: (A, Option<B>) -> C)
    requires |Matches(a, rs, on)| <= 1
    ensures LeftJoinRow(a, rs, on, combine) == [combine(a, FirstMatch(a, rs, on))]
  {
  }

  /** When each left row has at most one partner, LEFT JOIN is a row-by-row lookup. */
  lemma {:induction false} LeftJoinOneToOne<A(!new), B(!new), C(!new)>(ls: seq<A>, rs: seq<B>, on: (A, B) -> bool, combine: (A, Option<B>) -> C)
    requires AtMostOneMatch(ls, rs, on)
    ensures |LeftJoin(ls, rs, on, combine)| == |ls|
    ensures forall k :: 0 <= k < |ls| ==> LeftJoin(ls, rs, on, combine)[k] == combine(ls[k], FirstMatch(ls[k], rs, on))
  {
    if ls != [] {
      var a := ls[0];
      assert AtMostOneMatch(ls[1..], rs, on) by {
        forall k | 0 <= k < |ls[1..]| ensures ls[1..][k] == ls[k + 1] { }
      }
      LeftJoinOneToOne(ls[1..], rs, on, combine);
      AtMostOneMatchCount(a, rs, on);
      LeftJoinRowSingle(a, rs, on, combine);
      var tail := LeftJoin(ls[1..], rs, on, combine);
      var r := LeftJoin(ls, rs, on, combine);
      assert r == [combine(a, FirstMatch(a, rs, on))] + tail;
      forall k | 0 <= k < |ls| ensures r[k] == combine(ls[k], FirstMatch(ls[k], rs, on)) {
        if k > 0 {
          assert r[k] == tail[k - 1];
          assert ls[k] == ls[1..][k - 1];
        }
      }
    }
  }

  /** Every LEFT JOIN row pairs a left row with a partner, or with NULL when it has none. */
  lemma {:induction false} LeftJoinRowsSound<A(!new), B(!new), C(!new)>(ls: seq<A>, rs: seq<B>, on: (A, B) -> bool, combine: (A, Option<B>) -> C)
    ensures forall c :: c in LeftJoin(ls, rs, on, combine) ==>
      exists a, ob :: a in ls && c == combine(a, ob) && LegalPartner(a, rs, on, ob)
  {
    if ls != [] {
      LeftJoinRowsSound(ls[1..], rs, on, combine);
      var a := ls[0];
      var ms := Matches(a, rs, on);
      forall c | c in LeftJoinRow(a, rs, on, combine)
        ensures exists a', ob :: a' in ls && c == combine(a', ob) && LegalPartner(a', rs, on, ob)
      {
        if ms == [] {
          assert c == combine(a, None) && LegalPartner(a, rs, on, None);
        } else {
          var k :| 0 <= k < |ms| && c == combine(a, Some(ms[k]));
          assert ms[k] in ms;
          assert LegalPartner(a, rs, on, Some(ms[k]));
        }
      }
      forall c | c in LeftJoin(ls[1..], rs, on, combine)
        ensures exists a', ob :: a' in ls && c == combine(a', ob) && LegalPartner(a', rs, on, ob)
      {
        var a', ob :| a' in ls[1..] && c == combine(a', ob) && LegalPartner(a', rs, on, ob);
        assert a' in ls;
      }
    }
  }

  /** `ob` is what LEFT JOIN may pair `a` with: a matching row of `rs`, or NULL when none matches. */
  ghost predicate LegalPartner<A, B>(a: A, rs: seq<B>, on: (A, B) -> bool, ob: Option<B>) {
    match ob
    case None => forall b :: b in rs ==> !on(a, b)
    case Some(b) => b in rs && on(a, b)
  }

  /** The rows an inner JOIN produces for one left row: one per match, none without. */
  function InnerJoinRow<A(!new), B(!new), C(!new)>(a: A, rs: seq<B>, on: (A, B) -> bool, combine: (A, B) -> C): seq<C> {
    var ms := Matches(a, rs, on);
    seq(|ms|, k requires 0 <= k < |ms| => combine(a, ms[k]))
  }

  /** `ls JOIN rs ON on`, each output row built by `combine`. */
  function InnerJoin<A(!new), B(!new), C(!new)>(ls: seq<A>, rs: seq<B>, on: (A, B) -> bool, combine: (A, B) -> C): seq<C> {
    if ls == [] then [] else InnerJoinRow(ls[0], rs, on, combine) + InnerJoin(ls[1..], rs, on, combine)
  }

  /** JOIN yields exactly the combinations of matching pairs. */
  lemma {:induction false} InnerJoinRows<A(!new), B(!new), C(!new)>(ls: seq<A>, rs: seq<B>, on: (A, B) -> bool, combine: (A, B) -> C)
    ensures forall c :: c in InnerJoin(ls, rs, on, combine) ==>
      exists a, b :: a in ls && b in rs && on(a, b) && c == combine(a, b)
    ensures forall a, b :: a in ls && b in rs && on(a, b) ==> combine(a, b) in InnerJoin(ls, rs, on, combine)
  {
    if ls != [] {
      InnerJoinRows(ls[1..], rs, on, combine);
      var a := ls[0];
      var ms := Matches(a, rs, on);
      var row := InnerJoinRow(a, rs, on, combine);
      var rest := InnerJoin(ls[1..], rs, on, combine);
      forall c | c in row
        ensures exists a', b :: a' in ls && b in rs && on(a', b) && c == combine(a', b)
      {
        var k :| 0 <= k < |ms| && c == combine(a, ms[k]);
        assert ms[k] in ms;
      }
      forall c | c in rest
        ensures exists a', b :: a' in ls && b in rs && on(a', b) && c == combine(a', b)
      {
        var a', b :| a' in ls[1..] && b in rs && on(a', b) && c == combine(a', b);
        assert a' in ls;
      }
      forall a', b | a' in ls && b in rs && on(a', b)
        ensures combine(a', b) in InnerJoin(ls, rs, on, combine)
      {
        if a' == a {
          assert b in ms;
          var k :| 0 <= k < |ms| && ms[k] == b;
          assert row[k] == combine(a, b);
        } else {
          assert a' in ls[1..];
        }
      }
    }
  }

  /** When each left row has at most one partner, JOIN yields at most one row per left row. */
  lemma {:induction false} InnerJoinAtMostOne<A(!new), B(!new), C(!new)>(ls: seq<A>, rs: seq<B>, on: (A, B) -> bool, combine: (A, B) -> C)
    requires AtMostOneMatch(ls, rs, on)
    ensures |InnerJoin(ls, rs, on, combine)| <= |ls|
  {
    if ls != [] {
      assert AtMostOneMatch(ls[1..], rs, on) by {
        forall k | 0 <= k < |ls[1..]| ensures ls[1..][k] == ls[k + 1] { }
      }
      InnerJoinAtMostOne(ls[1..], rs, on, combine);
      AtMostOneMatchCount(ls[0], rs, on);
    }
  }

  /**
   * When each left row has at most one partner, JOIN yields exactly one row for each left row
   * that has a partner (`has` names that condition).
   */
  lemma {:induction false} InnerJoinCount<A(!new), B(!new), C(!new)>(ls: seq<A>, rs: seq<B>, on: (A, B) -> bool, combine: (A, B) -> C,
                                                  has: A -> bool)
    requires AtMostOneMatch(ls, rs, on)
    requires forall a :: has(a) <==> exists b :: b in rs && on(a, b)
    ensures |InnerJoin(ls, rs, on, combine)| == |Filter(ls, has)|
  {
    if ls != [] {
      var a := ls[0];
      assert AtMostOneMatch(ls[1..], rs, on) by {
        forall k | 0 <= k < |ls[1..]| ensures ls[1..][k] == ls[k + 1] { }
      }
      InnerJoinCount(ls[1..], rs, on, combine, has);
      AtMostOneMatchCount(a, rs, on);
      var ms := Matches(a, rs, on);
      assert |InnerJoinRow(a, rs, on, combine)| == |ms|;
      if has(a) {
        var b :| b in rs && on(a, b);
        assert b in ms;
      } else {
        forall b | b in rs ensures !on(a, b) { }
        FilterNone(rs, b => on(a, b));
      }
      assert ls == [a] + ls[1..];
      assert Filter(ls, has) == (if has(a) then [a] else []) + Filter(ls[1..], has);
    }
  }

  // ---------------------------------------------------------------- filtering a join

  lemma FilterLeftJoinRow<A(!new), B(!new), C(!new)>(a: A, rs: seq<B>, on: (A, B) -> bool, combine: (A, Option<B>) -> C,
                                                   p: C -> bool, q: A -> bool)
    requires forall a', ob :: p(combine(a', ob)) == q(a')
    ensures Filter(LeftJoinRow(a, rs, on, combine), p) == if q(a) then LeftJoinRow(a, rs, on, combine) else []
  {
    var row := LeftJoinRow(a, rs, on, combine);
    var ms := Matches(a, rs, on);
    forall x | x in row ensures p(x) == q(a) {
      if ms != [] {
        var k :| 0 <= k < |ms| && x == combine(a, Some(ms[k]));
      }
    }
    if q(a) {
      FilterAll(row, p);
    } else {
      FilterNone(row, p);
    }
  }

  lemma LeftJoinCons<A(!new), B(!new), C(!new)>(a: A, ls: seq<A>, rs: seq<B>, on: (A, B) -> bool, combine: (A, Option<B>) -> C)
    ensures LeftJoin([a] + ls, rs, on, combine) == LeftJoinRow(a, rs, on, combine) + LeftJoin(ls, rs, on, combine)
  {
    assert ([a] + ls)[1..] == ls;
  }

  /**
   * WHERE after LEFT JOIN, when the condition only looks at the left row, equals LEFT JOIN
   * of the filtered left rows.
   */
  lemma {:induction false} FilterLeftJoin<A(!new), B(!new), C(!new)>(ls: seq<A>, rs: seq<B>, on: (A, B) -> bool, combine: (A, Option<B>) -> C,
                                                  p: C -> bool, q: A -> bool)
    requires forall a, ob :: p(combine(a, ob)) == q(a)
    ensures Filter(LeftJoin(ls, rs, on, combine), p) == LeftJoin(Filter(ls, q), rs, on, combine)
  {
    if ls != [] {
      var a := ls[0];
      var row := LeftJoinRow(a, rs, on, combine);
      var tail := LeftJoin(ls[1..], rs, on, combine);
      var flTail := Filter(ls[1..], q);
      assert LeftJoin(ls, rs, on, combine) == row + tail;
      FilterAppend(row, tail, p);
      FilterLeftJoin(ls[1..], rs, on, combine, p, q);
      FilterLeftJoinRow(a, rs, on, combine, p, q);
      assert Filter(ls, q) == (if q(a) then [a] else []) + flTail;
      if q(a) {
        LeftJoinCons(a, flTail, rs, on, combine);
      } else {
        assert Filter(ls, q) == flTail;
      }
    }
  }
}
