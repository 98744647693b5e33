/** `sort_values("Valor", ascending=False).head(n)` over a group-by-sum
    result, and the 1-based Ranking column of the top-10 table. */
module Ranking {
  import opened Frames
  import opened GroupBy

  /** Valor never increases from one row to a later one. */
  ghost predicate NonIncreasing<K>(s: seq<Row<K>>)
  {
    forall i, j :: 0 <= i < j < |s| ==> s[i].valor >= s[j].valor
  }

  /** Puts `x` into a non-increasing list after every row whose Valor is at
      least its own. */
  function InsertDesc<K(==)>(s: seq<Row<K>>, x: Row<K>): (r: seq<Row<K>>)
    requires NonIncreasing(s)
    ensures NonIncreasing(r)
    ensures multiset(r) == multiset(s) + multiset{x}
    ensures forall y :: y in r ==> y == x || y in s
  {
    if s == [] then [x]
    else if s[0].valor < x.valor then [x] + s
    else
      assert s == [s[0]] + s[1..];
      var t := InsertDesc(s[1..], x);
      HeadDominates(s);
      ConsNonIncreasing(s[0], t);
      [s[0]] + t
  }

  /** The first row of a non-increasing list is at least as large as every row. */
  lemma HeadDominates<K>(s: seq<Row<K>>)
    requires NonIncreasing(s) && s != []
    ensures forall y :: y in s ==> y.valor <= s[0].valor
  {
  }

  /** A row no smaller than every row of a non-increasing list can head it. */
  lemma ConsNonIncreasing<K>(h: Row<K>, t: seq<Row<K>>)
    requires NonIncreasing(t) && forall y :: y in t ==> y.valor <= h.valor
    ensures NonIncreasing([h] + t)
  {
    forall i, j | 0 <= i < j < |[h] + t| ensures ([h] + t)[i].valor >= ([h] + t)[j].valor {
      assert ([h] + t)[j] == t[j - 1];
    }
  }

  /** The rows sorted by descending Valor. Pandas fixes no order among equal
      values; this insertion sort puts later rows first among equal values,
      and nothing proved below depends on that choice. */
  function SortDesc<K(==)>(g: seq<Row<K>>): (r: seq<Row<K>>)
    ensures NonIncreasing(r)
    ensures multiset(r) == multiset(g)
  {
    if g == [] then []
    else
      assert g == [g[0]] + g[1..];
      InsertDesc(SortDesc(g[1..]), g[0])
  }

  /** The first `n` rows by descending Valor. */
  function TopN<K(==)>(g: seq<Row<K>>, n: nat): seq<Row<K>>
  {
    Head(SortDesc(g), n)
  }

  /** What any tie order of `sort_values(...).head(n)` yields: `min(n, |g|)`
      rows of `g`, non-increasing, and no row left out has a larger Valor
      than any row kept. */
  ghost predicate IsTopN<K(!new)>(g: seq<Row<K>>, n: nat, r: seq<Row<K>>)
  {
    && |r| == (if n < |g| then n else |g|)
    && NonIncreasing(r)
    && multiset(r) <= multiset(g)
    && forall x, i :: 0 <= i < |r| && multiset(r)[x] < multiset(g)[x] ==> x.valor <= r[i].valor
  }

  /** Rows left behind a non-increasing prefix are no larger than any row in it. */
  lemma PrefixDominates<K>(s: seq<Row<K>>, k: nat, x: Row<K>, i: nat)
    requires NonIncreasing(s) && k <= |s| && i < k
    requires x in s[k..]
    ensures x.valor <= s[i].valor
  {
  }

  /** A row of `g` kept fewer times than `g` holds it is no larger than any
      kept row. */
  lemma TopNOmitted<K>(g: seq<Row<K>>, n: nat, x: Row<K>, i: nat)
    requires i < |TopN(g, n)| && multiset(TopN(g, n))[x] < multiset(g)[x]
    ensures x.valor <= TopN(g, n)[i].valor
  {
    var s := SortDesc(g);
    var r := TopN(g, n);
    var k := |r|;
    assert s == r + s[k..];
    assert multiset(g) == multiset(r) + multiset(s[k..]);
    assert x in multiset(s[k..]);
    PrefixDominates(s, k, x, i);
  }

  /** `min(n, |g|)` rows are kept, in non-increasing order. */
  lemma TopNShape<K>(g: seq<Row<K>>, n: nat)
    ensures |TopN(g, n)| == if n < |g| then n else |g|
    ensures NonIncreasing(TopN(g, n))
  {
    assert |SortDesc(g)| == |multiset(SortDesc(g))| == |multiset(g)| == |g|;
  }

  /** Every kept row is a row of `g`. */
  lemma TopNRow<K>(g: seq<Row<K>>, n: nat, i: nat)
    requires i < |TopN(g, n)|
    ensures TopN(g, n)[i] in g
  {
    var s := SortDesc(g);
    assert TopN(g, n)[i] == s[i];
    assert s[i] in multiset(s);
  }

  lemma TopNSpec<K(!new)>(g: seq<Row<K>>, n: nat)
    ensures IsTopN(g, n, TopN(g, n))
  {
    var s := SortDesc(g);
    var r := TopN(g, n);
    TopNShape(g, n);
    assert s == r + s[|r|..];
    assert multiset(g) == multiset(r) + multiset(s[|r|..]);
    forall x, i | 0 <= i < |r| && multiset(r)[x] < multiset(g)[x] ensures x.valor <= r[i].valor {
      TopNOmitted(g, n, x, i);
    }
  }

  /** A sequence without repeated elements holds each value at most once. */
  lemma {:induction false} CountAtMostOne<T>(s: seq<T>, x: T)
    requires forall i, j :: 0 <= i < j < |s| ==> s[i] != s[j]
    ensures multiset(s)[x] <= 1
  {
    if s != [] {
      assert s == [s[0]] + s[1..];
      CountAtMostOne(s[1..], x);
      assert s[0] == x ==> x !in s[1..];
    }
  }

  /** A value found at two positions is counted at least twice. */
  lemma RepeatCountsTwice<T>(s: seq<T>, i: nat, j: nat)
    requires i < j < |s|
    ensures s[i] == s[j] ==> multiset(s)[s[i]] >= 2
  {
    assert s == s[..j] + s[j..];
    assert s[..j][i] == s[i];
    assert s[j..][0] == s[j];
  }

  /** Two rows of a result with distinct keys that share a key are one row. */
  lemma SameKeySameRow<K>(g: seq<Row<K>>, x: Row<K>, y: Row<K>)
    requires DistinctKeys(g) && x in g && y in g
    ensures x.key == y.key ==> x == y
  {
    var a :| 0 <= a < |g| && g[a] == x;
    var b :| 0 <= b < |g| && g[b] == y;
    assert a < b ==> g[a].key != g[b].key;
    assert b < a ==> g[b].key != g[a].key;
  }

  /** Over a result whose keys are distinct, no key is kept twice. */
  lemma TopNDistinctKeys<K(!new)>(g: seq<Row<K>>, n: nat)
    requires DistinctKeys(g)
    ensures DistinctKeys(TopN(g, n))
  {
    var r := TopN(g, n);
    TopNSpec(g, n);
    forall i, j | 0 <= i < j < |r| ensures r[i].key != r[j].key {
      TopNRow(g, n, i);
      TopNRow(g, n, j);
      SameKeySameRow(g, r[i], r[j]);
      RepeatCountsTwice(r, i, j);
      CountAtMostOne(g, r[i]);
    }
  }

  /** A row of the ranking table: `df_bar` with its Ranking column. */
  datatype RankedRow = RankedRow(ranking: nat, localidad: string, valor: nat)

  /** `df_bar["Ranking"] = df_bar.index + 1` after `reset_index(drop=True)`. */
  function WithRanking(top: seq<Row<string>>): seq<RankedRow>
  {
    seq(|top|, i requires 0 <= i < |top| => RankedRow(i + 1, top[i].key, top[i].valor))
  }
}
