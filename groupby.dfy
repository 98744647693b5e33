/** `groupby(col, as_index=False)["Valor"].sum()`: one row per distinct key,
    keys in ascending order (pandas sorts group keys by default), each row
    holding the sum of Valor over the records with that key. */
module GroupBy {
  import opened Records
  import opened Ordering

  /** One row of a group-by-sum result: the key column and the summed Valor. */
  datatype Row<K> = Row(key: K, valor: nat)

  /** The key column of a result, in row order. */
  function Keys<K>(g: seq<Row<K>>): seq<K>
  {
    seq(|g|, i requires 0 <= i < |g| => g[i].key)
  }

  /** No key labels two rows. */
  ghost predicate DistinctKeys<K>(g: seq<Row<K>>)
  {
    forall i, j :: 0 <= i < j < |g| ==> g[i].key != g[j].key
  }

  /** The sum of the Valor column of a result. */
  function RowsTotal<K>(g: seq<Row<K>>): nat
  {
    if g == [] then 0 else g[0].valor + RowsTotal(g[1..])
  }

  /** The value a result gives `k`: that of the first row keyed `k`, or 0 when
      there is none. */
  function ValueOf<K(==)>(g: seq<Row<K>>, k: K): nat
  {
    if g == [] then 0 else if g[0].key == k then g[0].valor else ValueOf(g[1..], k)
  }

  /** The reference meaning of a group's total: Valor summed over the records
      whose key column equals `k`. */
  function SumFor<K(==)>(rs: seq<Record>, col: Record -> K, k: K): nat
  {
    if rs == [] then 0 else (if col(rs[0]) == k then rs[0].valor else 0) + SumFor(rs[1..], col, k)
  }

  /** Adds `v` to the row keyed `k` of an ascending result, or inserts a new
      row `k` at its place in the order when there is none. */
  function Accumulate<K(==)>(g: seq<Row<K>>, k: K, v: nat, lt: (K, K) -> bool): seq<Row<K>>
  {
    if g == [] then [Row(k, v)]
    else if g[0].key == k then [Row(k, g[0].valor + v)] + g[1..]
    else if lt(k, g[0].key) then [Row(k, v)] + g
    else [g[0]] + Accumulate(g[1..], k, v, lt)
  }

  /** The group-by-sum of the records `rs` on the key column `col`. */
  function GroupSum<K(==)>(rs: seq<Record>, col: Record -> K, lt: (K, K) -> bool): seq<Row<K>>
  {
    if rs == [] then [] else Accumulate(GroupSum(rs[1..], col, lt), col(rs[0]), rs[0].valor, lt)
  }

  lemma {:induction false} ValueOfAbsent<K>(g: seq<Row<K>>, k: K)
    requires k !in Keys(g)
    ensures ValueOf(g, k) == 0
  {
    if g != [] {
      assert Keys(g)[0] == g[0].key;
      assert Keys(g[1..]) == Keys(g)[1..];
      ValueOfAbsent(g[1..], k);
    }
  }

  /** In a result with ascending keys, each row's value is the value of its key. */
  lemma {:induction false} ValueOfRow<K(!new)>(g: seq<Row<K>>, i: nat, lt: (K, K) -> bool)
    requires StrictTotalOrder(lt) && StrictlyAscending(Keys(g), lt)
    requires i < |g|
    ensures ValueOf(g, g[i].key) == g[i].valor
  {
    if i > 0 {
      assert lt(Keys(g)[0], Keys(g)[i]);
      assert Keys(g[1..]) == Keys(g)[1..];
      ValueOfRow(g[1..], i - 1, lt);
    }
  }

  lemma {:induction false} AccumulateSpec<K(!new)>(g: seq<Row<K>>, k: K, v: nat, lt: (K, K) -> bool)
    requires StrictTotalOrder(lt) && StrictlyAscending(Keys(g), lt)
    ensures StrictlyAscending(Keys(Accumulate(g, k, v, lt)), lt)
    ensures forall x :: x in Keys(Accumulate(g, k, v, lt)) <==> x == k || x in Keys(g)
    ensures forall x :: ValueOf(Accumulate(g, k, v, lt), x) == ValueOf(g, x) + (if x == k then v else 0)
    ensures RowsTotal(Accumulate(g, k, v, lt)) == RowsTotal(g) + v
  {
    var a := Accumulate(g, k, v, lt);
    if g == [] {
      assert Keys(a) == [k];
    } else if g[0].key == k {
      assert a[1..] == g[1..];
      assert Keys(a) == Keys(g);
      assert Keys(g)[0] == k;
    } else if lt(k, g[0].key) {
      assert a[1..] == g;
      assert Keys(a) == [k] + Keys(g);
      forall j | 0 <= j < |g| ensures lt(k, Keys(g)[j]) {
        if j > 0 {
          assert lt(Keys(g)[0], Keys(g)[j]);
        }
      }
      assert k !in Keys(g);
      ValueOfAbsent(g, k);
    } else {
      var t := Accumulate(g[1..], k, v, lt);
      assert Keys(g[1..]) == Keys(g)[1..];
      AccumulateSpec(g[1..], k, v, lt);
      assert a[1..] == t;
      assert Keys(a) == [g[0].key] + Keys(t);
      assert lt(g[0].key, k);
      forall y | y in Keys(t) ensures lt(g[0].key, y) {
        if y != k {
          var j :| 0 <= j < |g| - 1 && Keys(g[1..])[j] == y;
          assert Keys(g)[j + 1] == y;
          assert lt(Keys(g)[0], Keys(g)[j + 1]);
        }
      }
      assert Keys(g) == [g[0].key] + Keys(g[1..]);
    }
  }

  /** Distinct elements: as many as the sequence is long. */
  lemma {:induction false} DistinctCard<T>(s: seq<T>)
    requires forall i, j :: 0 <= i < j < |s| ==> s[i] != s[j]
    ensures |set x | x in s| == |s|
  {
    if s != [] {
      DistinctCard(s[1..]);
      assert (set x | x in s) == {s[0]} + (set x | x in s[1..]);
      assert s[0] !in s[1..];
    }
  }

  /** The group-by-sum result: keys strictly ascending, exactly the keys the
      records have (none missing, none zero-filled), each row's Valor the sum
      over its records, the rows summing to the records' total. */
  lemma {:induction false} GroupSumSpec<K(!new)>(rs: seq<Record>, col: Record -> K, lt: (K, K) -> bool)
    requires StrictTotalOrder(lt)
    ensures StrictlyAscending(Keys(GroupSum(rs, col, lt)), lt)
    ensures forall x :: x in Keys(GroupSum(rs, col, lt)) <==> exists r :: r in rs && col(r) == x
    ensures forall x :: ValueOf(GroupSum(rs, col, lt), x) == SumFor(rs, col, x)
    ensures forall i :: 0 <= i < |GroupSum(rs, col, lt)| ==>
              GroupSum(rs, col, lt)[i].valor == SumFor(rs, col, GroupSum(rs, col, lt)[i].key)
    ensures RowsTotal(GroupSum(rs, col, lt)) == Total(rs)
    ensures |GroupSum(rs, col, lt)| == |Distinct(rs, col)|
  {
    var g := GroupSum(rs, col, lt);
    if rs != [] {
      GroupSumSpec(rs[1..], col, lt);
      AccumulateSpec(GroupSum(rs[1..], col, lt), col(rs[0]), rs[0].valor, lt);
      assert forall r :: r in rs <==> r == rs[0] || r in rs[1..];
    }
    forall i | 0 <= i < |g| ensures g[i].valor == SumFor(rs, col, g[i].key) {
      ValueOfRow(g, i, lt);
    }
    DistinctCard(Keys(g));
    assert (set x | x in Keys(g)) == Distinct(rs, col);
  }

  /** Strictly ascending keys label one row each. */
  lemma AscendingKeysDistinct<K(!new)>(g: seq<Row<K>>, lt: (K, K) -> bool)
    requires StrictTotalOrder(lt) && StrictlyAscending(Keys(g), lt)
    ensures DistinctKeys(g)
  {
    forall i, j | 0 <= i < j < |g| ensures g[i].key != g[j].key {
      assert lt(Keys(g)[i], Keys(g)[j]);
    }
  }
}
