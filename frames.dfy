/** The generic table operations the pipeline is built from: boolean-mask
    row selection (`df[mask]`), `head(n)` and `nunique()`. */
module Frames {

  /** `a` is `b` with some elements deleted, the rest kept in order. */
  ghost predicate SubsequenceOf<T>(a: seq<T>, b: seq<T>)
    decreases |b|
  {
    if |b| == 0 then |a| == 0
    else (|a| > 0 && a[0] == b[0] && SubsequenceOf(a[1..], b[1..])) || SubsequenceOf(a, b[1..])
  }

  lemma {:induction false} SubsequenceTransitive<T>(a: seq<T>, b: seq<T>, c: seq<T>)
    requires SubsequenceOf(a, b) && SubsequenceOf(b, c)
    ensures SubsequenceOf(a, c)
    decreases |c|
  {
    if |c| > 0 {
      if |b| > 0 && b[0] == c[0] && SubsequenceOf(b[1..], c[1..]) {
        if |a| > 0 && a[0] == b[0] && SubsequenceOf(a[1..], b[1..]) {
          SubsequenceTransitive(a[1..], b[1..], c[1..]);
        } else {
          SubsequenceTransitive(a, b[1..], c[1..]);
        }
      } else {
        SubsequenceTransitive(a, b, c[1..]);
      }
    }
  }

  /** Boolean-mask selection: the rows for which `keep` holds, in their
      original order, each as often as it occurs. */
  function Select<T(!new)>(s: seq<T>, keep: T -> bool): (r: seq<T>)
    ensures SubsequenceOf(r, s)
    ensures forall x :: x in r <==> x in s && keep(x)
    ensures forall x :: multiset(r)[x] == if keep(x) then multiset(s)[x] else 0
  {
    if s == [] then []
    else
      assert s == [s[0]] + s[1..];
      if keep(s[0]) then [s[0]] + Select(s[1..], keep)
      else Select(s[1..], keep)
  }

  /** A mask that every row passes selects the whole table. */
  lemma {:induction false} SelectAll<T(!new)>(s: seq<T>, keep: T -> bool)
    requires forall x :: x in s ==> keep(x)
    ensures Select(s, keep) == s
  {
    if s != [] {
      SelectAll(s[1..], keep);
      assert s == [s[0]] + s[1..];
    }
  }

  /** Two masks that agree on every row select the same rows. */
  lemma {:induction false} SelectAgree<T(!new)>(s: seq<T>, p: T -> bool, q: T -> bool)
    requires forall x :: x in s ==> p(x) == q(x)
    ensures Select(s, p) == Select(s, q)
  {
    if s != [] {
      SelectAgree(s[1..], p, q);
    }
  }

  /** `head(n)`: the first `n` rows, or all of them when there are fewer. */
  function Head<T>(s: seq<T>, n: nat): (r: seq<T>)
    ensures |r| == if n < |s| then n else |s|
    ensures r <= s
  {
    if n < |s| then s[..n] else s
  }

  /** The position of the first occurrence of `x` in `s`. */
  function FirstIndex<T(==)>(s: seq<T>, x: T): (i: nat)
    requires x in s
    ensures i < |s| && s[i] == x && x !in s[..i]
  {
    if s[0] == x then 0 else FirstIndex(s[1..], x) + 1
  }

  /** Appending a value leaves the first occurrence of every earlier value
      where it was. */
  lemma FirstIndexAppend<T>(a: seq<T>, y: T, x: T)
    requires x in a
    ensures FirstIndex(a + [y], x) == FirstIndex(a, x)
  {
    var i := FirstIndex(a + [y], x);
    var k := FirstIndex(a, x);
    assert forall m :: 0 <= m < |a| ==> (a + [y])[m] == a[m];
    assert forall m :: 0 <= m < k ==> a[m] != x by {
      forall m | 0 <= m < k ensures a[m] != x {
        assert a[..k][m] == a[m];
      }
    }
    assert forall m :: 0 <= m < i ==> (a + [y])[m] != x by {
      forall m | 0 <= m < i ensures (a + [y])[m] != x {
        assert (a + [y])[..i][m] == (a + [y])[m];
      }
    }
  }

  /** `unique()`: each distinct value once, in order of first appearance. */
  function Unique<T(==,!new)>(s: seq<T>): (r: seq<T>)
    ensures forall x :: x in r <==> x in s
    ensures forall i, j :: 0 <= i < j < |r| ==> r[i] != r[j]
    ensures forall i, j :: 0 <= i < j < |r| ==> FirstIndex(s, r[i]) < FirstIndex(s, r[j])
  {
    if s == [] then []
    else
      var init := s[..|s| - 1];
      var last := s[|s| - 1];
      assert s == init + [last];
      var u := Unique(init);
      assert forall x :: x in init ==> FirstIndex(s, x) == FirstIndex(init, x) by {
        forall x | x in init ensures FirstIndex(s, x) == FirstIndex(init, x) {
          FirstIndexAppend(init, last, x);
        }
      }
      if last in init then u
      else
        assert FirstIndex(s, last) == |init|;
        u + [last]
  }

  /** `nunique()`: the number of distinct values in a column. */
  function CountDistinct<T(==)>(s: seq<T>): (n: nat)
    ensures n == |set x | x in s|
  {
    if s == [] then 0
    else
      var rest := set x | x in s[1..];
      assert (set x | x in s) == {s[0]} + rest;
      if s[0] in s[1..] then
        assert s[0] in rest && {s[0]} + rest == rest;
        CountDistinct(s[1..])
      else
        CountDistinct(s[1..]) + 1
  }
}
