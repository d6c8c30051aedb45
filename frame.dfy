/**
 The table operations the dashboard borrows from its data-frame library,
 stated over sequences of rows: column selection, boolean-mask filtering,
 column sums, group-by-and-sum, value counts, unique values in order of first
 appearance, and the minimum and maximum of a numeric column.

 Every recursive definition here peels off the LAST row, so that a table
 that grows by one row at the end grows each derived value by one step.
 */
module Frame {

  datatype Option<T> = None | Some(value: T)

  /** The column `f` of a table: one value per row, in row order. */
  function Column<T, K>(rows: seq<T>, f: T -> K): (c: seq<K>)
    ensures |c| == |rows|
    ensures forall i {:trigger c[i]} :: 0 <= i < |rows| ==> c[i] == f(rows[i])
  {
    if rows == [] then [] else Column(rows[..|rows| - 1], f) + [f(rows[|rows| - 1])]
  }

  lemma {:induction false} ColumnSnoc<T, K>(init: seq<T>, x: T, f: T -> K)
    ensures Column(init + [x], f) == Column(init, f) + [f(x)]
  {
    assert (init + [x])[..|init|] == init;
  }

  /** A value is in a column exactly when some row carries it. */
  lemma {:induction false} ColumnMembership<T, K>(rows: seq<T>, f: T -> K)
    ensures forall x :: x in rows ==> f(x) in Column(rows, f)
    ensures forall v :: v in Column(rows, f) ==> exists x :: x in rows && f(x) == v
  {
    var c := Column(rows, f);
    forall x | x in rows
      ensures f(x) in c
    {
      var i :| 0 <= i < |rows| && rows[i] == x;
      assert c[i] == f(x);
    }
    forall v | v in c
      ensures exists x :: x in rows && f(x) == v
    {
      var i :| 0 <= i < |c| && c[i] == v;
      assert rows[i] in rows;
    }
  }

  /** `a` is `b` with some of its elements left out and the rest kept in order. */
  predicate IsSubseq<T(==)>(a: seq<T>, b: seq<T>)
    decreases |b|
  {
    || a == []
    || (&& b != []
        && (|| (a[|a| - 1] == b[|b| - 1] && IsSubseq(a[..|a| - 1], b[..|b| - 1]))
            || IsSubseq(a, b[..|b| - 1])))
  }

  lemma {:induction false} IsSubseqTransitive<T>(a: seq<T>, b: seq<T>, c: seq<T>)
    requires IsSubseq(a, b) && IsSubseq(b, c)
    ensures IsSubseq(a, c)
    decreases |c|
  {
    if a != [] {
      var b', c' := b[..|b| - 1], c[..|c| - 1];
      if IsSubseq(b, c') {
        IsSubseqTransitive(a, b, c');
      } else if IsSubseq(a, b') {
        IsSubseqTransitive(a, b', c');
      } else {
        IsSubseqTransitive(a[..|a| - 1], b', c');
      }
    }
  }

  /** The rows for which `keep` holds, in table order: `rows[mask]`. */
  function Filter<T(==,!new)>(rows: seq<T>, keep: T -> bool): (r: seq<T>)
    ensures forall x :: x in r <==> x in rows && keep(x)
    ensures IsSubseq(r, rows)
  {
    if rows == [] then []
    else
      var init, last := rows[..|rows| - 1], rows[|rows| - 1];
      assert rows == init + [last];
      var r := Filter(init, keep);
      if keep(last) then r + [last] else r
  }

  /** Filtering keeps every copy of a row it keeps: no duplicate is lost or added. */
  lemma {:induction false} FilterMultiplicity<T(!new)>(rows: seq<T>, keep: T -> bool, x: T)
    ensures multiset(Filter(rows, keep))[x] == if keep(x) then multiset(rows)[x] else 0
  {
    if rows != [] {
      var init, last := rows[..|rows| - 1], rows[|rows| - 1];
      assert rows == init + [last];
      FilterMultiplicity(init, keep, x);
    }
  }

  lemma {:induction false} FilterKeepsAll<T(!new)>(rows: seq<T>, keep: T -> bool)
    requires forall x :: x in rows ==> keep(x)
    ensures Filter(rows, keep) == rows
  {
    if rows != [] {
      var init, last := rows[..|rows| - 1], rows[|rows| - 1];
      assert rows == init + [last];
      assert last in rows;
      assert forall x :: x in init ==> x in rows;
      FilterKeepsAll(init, keep);
    }
  }

  lemma {:induction false} FilterKeepsNone<T(!new)>(rows: seq<T>, keep: T -> bool)
    requires forall x :: x in rows ==> !keep(x)
    ensures Filter(rows, keep) == []
  {
    if rows != [] {
      var init, last := rows[..|rows| - 1], rows[|rows| - 1];
      assert rows == init + [last];
      assert last in rows;
      assert forall x :: x in init ==> x in rows;
      FilterKeepsNone(init, keep);
    }
  }

  /** Appending a row to a table appends it to a selection exactly when it passes the mask. */
  lemma {:induction false} FilterSnoc<T(!new)>(init: seq<T>, x: T, keep: T -> bool)
    ensures Filter(init + [x], keep) == if keep(x) then Filter(init, keep) + [x] else Filter(init, keep)
  {
    assert (init + [x])[..|init|] == init;
  }

  /** Two masks that agree on every row select the same rows. */
  lemma {:induction false} FilterSameKeep<T(!new)>(t: seq<T>, p: T -> bool, q: T -> bool)
    requires forall r :: p(r) == q(r)
    ensures Filter(t, p) == Filter(t, q)
  {
    if t != [] {
      FilterSameKeep(t[..|t| - 1], p, q);
    }
  }

  /** Filtering by one mask and then another is filtering by both at once. */
  lemma {:induction false} FilterTwice<T(!new)>(t: seq<T>, p: T -> bool, q: T -> bool, pq: T -> bool)
    requires forall r :: pq(r) == (p(r) && q(r))
    ensures Filter(Filter(t, p), q) == Filter(t, pq)
  {
    if t != [] {
      var init, x := t[..|t| - 1], t[|t| - 1];
      FilterTwice(init, p, q, pq);
      var f0 := Filter(init, p);
      if p(x) {
        assert (f0 + [x])[..|f0|] == f0;
      }
    }
  }

  /** The sum of `weight` over the rows: `df[col].sum()`. */
  function Total<T>(rows: seq<T>, weight: T -> int): int
  {
    if rows == [] then 0 else Total(rows[..|rows| - 1], weight) + weight(rows[|rows| - 1])
  }

  /** The rows whose `key` is `k`: one group of a group-by. */
  function HasKey<T, K(==)>(key: T -> K, k: K): T -> bool
  {
    x => key(x) == k
  }

  /** The sum of `weight` over the rows whose `key` is `k`. */
  function GroupTotal<T, K(==)>(rows: seq<T>, key: T -> K, weight: T -> int, k: K): int
  {
    if rows == [] then 0
    else
      var x := rows[|rows| - 1];
      GroupTotal(rows[..|rows| - 1], key, weight, k) + (if key(x) == k then weight(x) else 0)
  }

  /** A group's total is what filtering the table down to the group and summing gives. */
  lemma {:induction false} GroupTotalIsFilteredTotal<T(!new), K(!new)>(rows: seq<T>, key: T -> K, weight: T -> int, k: K)
    ensures GroupTotal(rows, key, weight, k) == Total(Filter(rows, HasKey(key, k)), weight)
  {
    if rows != [] {
      var init, x := rows[..|rows| - 1], rows[|rows| - 1];
      GroupTotalIsFilteredTotal(init, key, weight, k);
      var g0 := Filter(init, HasKey(key, k));
      if key(x) == k {
        assert (g0 + [x])[..|g0|] == g0;
      }
    }
  }

  /** A key that no row carries has an empty group. */
  lemma {:induction false} GroupTotalAbsent<T, K>(rows: seq<T>, key: T -> K, weight: T -> int, k: K)
    requires k !in Column(rows, key)
    ensures GroupTotal(rows, key, weight, k) == 0
  {
    if rows != [] {
      var init := rows[..|rows| - 1];
      assert Column(rows, key) == Column(init, key) + [key(rows[|rows| - 1])];
      GroupTotalAbsent(init, key, weight, k);
    }
  }

  /**
   `df.groupby(key)[weight].sum()`: one entry per distinct key, holding the
   sum of `weight` over the rows of that group.
   */
  function GroupSum<T, K(==,!new)>(rows: seq<T>, key: T -> K, weight: T -> int): (m: map<K, int>)
    ensures forall k :: k in m <==> k in Column(rows, key)
    ensures forall k :: k in m ==> m[k] == GroupTotal(rows, key, weight, k)
  {
    if rows == [] then map[]
    else
      var init, x := rows[..|rows| - 1], rows[|rows| - 1];
      var m := GroupSum(init, key, weight);
      assert Column(rows, key) == Column(init, key) + [key(x)];
      if key(x) in m then
        m[key(x) := m[key(x)] + weight(x)]
      else
        GroupTotalAbsent(init, key, weight, key(x));
        m[key(x) := weight(x)]
  }

  /** Appending a row adds its weight to its own key's entry, creating the entry if needed. */
  lemma {:induction false} GroupSumSnoc<T, K(!new)>(init: seq<T>, x: T, key: T -> K, weight: T -> int)
    ensures var m := GroupSum(init, key, weight);
      GroupSum(init + [x], key, weight) == m[key(x) := (if key(x) in m then m[key(x)] else 0) + weight(x)]
  {
    assert (init + [x])[..|init|] == init;
  }

  function Identity<T>(x: T): T { x }

  function One<T>(x: T): int { 1 }

  /** Counting the rows of a group by summing ones gives the multiplicity of its key. */
  lemma {:induction false} GroupTotalOfOnes<K>(xs: seq<K>, k: K)
    ensures GroupTotal(xs, Identity, One, k) == multiset(xs)[k]
  {
    if xs != [] {
      var init := xs[..|xs| - 1];
      assert xs == init + [xs[|xs| - 1]];
      GroupTotalOfOnes(init, k);
    }
  }

  lemma {:induction false} TotalOfOnes<T>(rows: seq<T>)
    ensures Total(rows, One) == |rows|
  {
    if rows != [] {
      TotalOfOnes(rows[..|rows| - 1]);
    }
  }

  lemma ColumnOfIdentity<T>(xs: seq<T>)
    ensures Column(xs, Identity) == xs
  {
  }

  /**
   `series.value_counts()`: one entry per value that occurs, holding how
   often it occurs. Values that do not occur get no entry at all.
   */
  function ValueCounts<K(==,!new)>(xs: seq<K>): (m: map<K, int>)
    ensures forall k :: k in m <==> k in xs
    ensures forall k :: k in m ==> m[k] == multiset(xs)[k] > 0
  {
    var m := GroupSum(xs, Identity, One);
    ColumnOfIdentity(xs);
    forall k | k in m
      ensures m[k] == multiset(xs)[k]
    {
      GroupTotalOfOnes(xs, k);
    }
    m
  }

  /** The position of the first occurrence of `x` in `xs`. */
  function FirstIndex<K(==)>(xs: seq<K>, x: K): (i: nat)
    requires x in xs
    ensures i < |xs| && xs[i] == x && x !in xs[..i]
  {
    if xs[0] == x then 0 else 1 + FirstIndex(xs[1..], x)
  }

  lemma {:induction false} FirstIndexIs<K>(xs: seq<K>, x: K, i: nat)
    requires i < |xs| && xs[i] == x && x !in xs[..i]
    ensures FirstIndex(xs, x) == i
  {
  }

  /**
   `series.unique()`: every value of `xs` exactly once, in the order in
   which each first occurs.
   */
  function Unique<K(==,!new)>(xs: seq<K>): (u: seq<K>)
    ensures forall x :: x in u <==> x in xs
    ensures forall i, j :: 0 <= i < j < |u| ==> u[i] != u[j]
    ensures forall i, j {:trigger FirstIndex(xs, u[i]), FirstIndex(xs, u[j])} :: 0 <= i < j < |u| ==> FirstIndex(xs, u[i]) < FirstIndex(xs, u[j])
  {
    if xs == [] then []
    else
      var init, x := xs[..|xs| - 1], xs[|xs| - 1];
      assert xs == init + [x];
      var u := Unique(init);
      forall y | y in init
        ensures FirstIndex(xs, y) == FirstIndex(init, y)
      {
        var i := FirstIndex(init, y);
        assert xs[..i] == init[..i];
        FirstIndexIs(xs, y, i);
      }
      if x in u then u
      else
        assert xs[..|init|] == init;
        FirstIndexIs(xs, x, |init|);
        u + [x]
  }

  /** `series.min()`; `None` stands for the NaN the library gives on an empty column. */
  function Min(xs: seq<int>): (r: Option<int>)
    ensures r.None? <==> xs == []
    ensures r.Some? ==> r.value in xs && forall x :: x in xs ==> r.value <= x
  {
    if xs == [] then None
    else
      var init, x := xs[..|xs| - 1], xs[|xs| - 1];
      assert xs == init + [x];
      match Min(init)
      case None => Some(x)
      case Some(m) => Some(if x < m then x else m)
  }

  /** `series.max()`; `None` stands for the NaN the library gives on an empty column. */
  function Max(xs: seq<int>): (r: Option<int>)
    ensures r.None? <==> xs == []
    ensures r.Some? ==> r.value in xs && forall x :: x in xs ==> x <= r.value
  {
    if xs == [] then None
    else
      var init, x := xs[..|xs| - 1], xs[|xs| - 1];
      assert xs == init + [x];
      match Max(init)
      case None => Some(x)
      case Some(m) => Some(if m < x then x else m)
  }

  /** The sum of the entries of `m` at the keys `ks`. */
  function SumOver<K>(ks: seq<K>, m: map<K, int>): int
    requires forall k :: k in ks ==> k in m
  {
    if ks == [] then 0 else SumOver(ks[..|ks| - 1], m) + m[ks[|ks| - 1]]
  }

  /** The group totals of the keys `ks`, added up. */
  function GroupsTotal<T, K(==)>(ks: seq<K>, rows: seq<T>, key: T -> K, weight: T -> int): int
  {
    if ks == [] then 0 else GroupsTotal(ks[..|ks| - 1], rows, key, weight) + GroupTotal(rows, key, weight, ks[|ks| - 1])
  }

  /** Over distinct keys, a new row adds its weight once if its key is among them, and not at all otherwise. */
  lemma {:induction false} GroupsTotalStep<T, K>(ks: seq<K>, init: seq<T>, x: T, key: T -> K, weight: T -> int)
    requires forall i, j :: 0 <= i < j < |ks| ==> ks[i] != ks[j]
    ensures GroupsTotal(ks, init + [x], key, weight)
         == GroupsTotal(ks, init, key, weight) + (if key(x) in ks then weight(x) else 0)
  {
    var rows := init + [x];
    assert rows[..|rows| - 1] == init;
    if ks != [] {
      var ks' := ks[..|ks| - 1];
      assert ks == ks' + [ks[|ks| - 1]];
      GroupsTotalStep(ks', init, x, key, weight);
    }
  }

  lemma {:induction false} GroupsTotalOfNoRows<T, K>(ks: seq<K>, key: T -> K, weight: T -> int)
    ensures GroupsTotal(ks, [], key, weight) == 0
  {
    if ks != [] {
      GroupsTotalOfNoRows(ks[..|ks| - 1], key, weight);
    }
  }

  /** Summing the groups of a list of distinct keys that covers every row gives the column sum. */
  lemma {:induction false} GroupsTotalCovering<T, K>(ks: seq<K>, rows: seq<T>, key: T -> K, weight: T -> int)
    requires forall i, j :: 0 <= i < j < |ks| ==> ks[i] != ks[j]
    requires forall i :: 0 <= i < |rows| ==> key(rows[i]) in ks
    ensures GroupsTotal(ks, rows, key, weight) == Total(rows, weight)
  {
    if rows != [] {
      var init, x := rows[..|rows| - 1], rows[|rows| - 1];
      assert rows == init + [x];
      assert key(rows[|rows| - 1]) in ks;
      GroupsTotalCovering(ks, init, key, weight);
      GroupsTotalStep(ks, init, x, key, weight);
    } else {
      GroupsTotalOfNoRows(ks, key, weight);
    }
  }

  lemma {:induction false} SumOverGroupSum<T, K(!new)>(ks: seq<K>, rows: seq<T>, key: T -> K, weight: T -> int)
    requires forall k :: k in ks ==> k in Column(rows, key)
    ensures forall k :: k in ks ==> k in GroupSum(rows, key, weight)
    ensures SumOver(ks, GroupSum(rows, key, weight)) == GroupsTotal(ks, rows, key, weight)
  {
    if ks != [] {
      SumOverGroupSum(ks[..|ks| - 1], rows, key, weight);
    }
  }

  /** The group sums, added up over all groups, give the column sum. */
  lemma {:induction false} GroupSumTotal<T, K(!new)>(rows: seq<T>, key: T -> K, weight: T -> int)
    ensures SumOver(Unique(Column(rows, key)), GroupSum(rows, key, weight)) == Total(rows, weight)
  {
    var u := Unique(Column(rows, key));
    SumOverGroupSum(u, rows, key, weight);
    forall i | 0 <= i < |rows|
      ensures key(rows[i]) in u
    {
      assert Column(rows, key)[i] == key(rows[i]);
    }
    GroupsTotalCovering(u, rows, key, weight);
  }

  /** The value counts add up to the length of the column. */
  lemma {:induction false} ValueCountsTotal<K(!new)>(xs: seq<K>)
    ensures SumOver(Unique(xs), ValueCounts(xs)) == |xs|
  {
    GroupSumTotal(xs, Identity, One);
    ColumnOfIdentity(xs);
    TotalOfOnes(xs);
  }
}
