/** The option lists of the sidebar: the sorted distinct years, crime types
    and localities of the table, and the year drop-down built from them. */
module Options {
  import opened Ordering
  import opened Records

  /** Adds `x` to an ascending list of distinct values, unless it is there. */
  function Insert<K(==)>(s: seq<K>, x: K, lt: (K, K) -> bool): seq<K>
  {
    if s == [] then [x]
    else if x == s[0] then s
    else if lt(x, s[0]) then [x] + s
    else [s[0]] + Insert(s[1..], x, lt)
  }

  lemma {:induction false} InsertKeepsAscending<K(!new)>(s: seq<K>, x: K, lt: (K, K) -> bool)
    requires StrictTotalOrder(lt) && StrictlyAscending(s, lt)
    ensures StrictlyAscending(Insert(s, x, lt), lt)
    ensures forall y :: y in Insert(s, x, lt) <==> y == x || y in s
  {
    if s != [] && x != s[0] && !lt(x, s[0]) {
      var t := Insert(s[1..], x, lt);
      InsertKeepsAscending(s[1..], x, lt);
      assert lt(s[0], x);
      forall y | y in t ensures lt(s[0], y) {
        if y != x {
          var j :| 1 <= j < |s| && s[j] == y;
        }
      }
      assert s == [s[0]] + s[1..];
    }
  }

  /** `sorted(col.unique())`: the distinct values of `xs` in ascending order. */
  function SortedUnique<K(==)>(xs: seq<K>, lt: (K, K) -> bool): seq<K>
  {
    if xs == [] then [] else Insert(SortedUnique(xs[1..], lt), xs[0], lt)
  }

  /** The option list is strictly ascending (so free of duplicates), holds
      exactly the values of `xs`, and is the only list with both properties. */
  lemma {:induction false} SortedUniqueSpec<K(!new)>(xs: seq<K>, lt: (K, K) -> bool)
    requires StrictTotalOrder(lt)
    ensures StrictlyAscending(SortedUnique(xs, lt), lt)
    ensures forall y :: y in SortedUnique(xs, lt) <==> y in xs
    ensures forall s :: StrictlyAscending(s, lt) && (forall y :: y in s <==> y in xs) ==> s == SortedUnique(xs, lt)
  {
    if xs != [] {
      SortedUniqueSpec(xs[1..], lt);
      InsertKeepsAscending(SortedUnique(xs[1..], lt), xs[0], lt);
      assert forall y :: y in xs <==> y == xs[0] || y in xs[1..];
    }
    forall s | StrictlyAscending(s, lt) && (forall y :: y in s <==> y in xs)
      ensures s == SortedUnique(xs, lt)
    {
      AscendingUnique(s, SortedUnique(xs, lt), lt);
    }
  }

  /** `años`: the years present in the table, ascending. */
  function YearOptions(df: seq<Record>): seq<int>
  {
    SortedUnique(Column(df, Ano), IntLess)
  }

  /** The crime types offered in the multi-select, ascending. */
  function IndicatorOptions(df: seq<Record>): seq<string>
  {
    SortedUnique(Column(df, Indicador), StrLess)
  }

  /** `localidades`: the localities present in the table, ascending. */
  function LocalityOptions(df: seq<Record>): seq<string>
  {
    SortedUnique(Column(df, Localidad), StrLess)
  }

  /** The year drop-down: "Todos" first, then every year of the table. */
  function YearChoices(df: seq<Record>): seq<YearSel>
  {
    var years := YearOptions(df);
    [Todos] + seq(|years|, i requires 0 <= i < |years| => Only(years[i]))
  }

  /** Each option list is strictly ascending and holds exactly the values the
      table has in that column. */
  lemma OptionListsSpec(df: seq<Record>)
    ensures StrictlyAscending(YearOptions(df), IntLess)
    ensures forall y :: y in YearOptions(df) <==> exists r :: r in df && r.ano == y
    ensures StrictlyAscending(IndicatorOptions(df), StrLess)
    ensures forall n :: n in IndicatorOptions(df) <==> exists r :: r in df && r.indicador == n
    ensures StrictlyAscending(LocalityOptions(df), StrLess)
    ensures forall n :: n in LocalityOptions(df) <==> exists r :: r in df && r.localidad == n
  {
    IntLessIsStrictTotal();
    StrLessIsStrictTotal();
    SortedUniqueSpec(Column(df, Ano), IntLess);
    SortedUniqueSpec(Column(df, Indicador), StrLess);
    SortedUniqueSpec(Column(df, Localidad), StrLess);
    ColumnHoldsDistinct(df, Ano);
    ColumnHoldsDistinct(df, Indicador);
    ColumnHoldsDistinct(df, Localidad);
  }

  /** The drop-down offers "Todos" first and then exactly the years of the table. */
  lemma YearChoicesSpec(df: seq<Record>)
    ensures |YearChoices(df)| == |YearOptions(df)| + 1 && YearChoices(df)[0] == Todos
    ensures forall c :: c in YearChoices(df) <==> c == Todos || (c.Only? && exists r :: r in df && r.ano == c.year)
  {
    OptionListsSpec(df);
    var years := YearOptions(df);
    forall c: YearSel | c.Only? && c.year in years ensures c in YearChoices(df) {
      var i :| 0 <= i < |years| && years[i] == c.year;
      assert YearChoices(df)[i + 1] == c;
    }
    forall c | c in YearChoices(df) ensures c == Todos || (c.Only? && c.year in years) {
      var i :| 0 <= i < |YearChoices(df)| && YearChoices(df)[i] == c;
      if i > 0 {
        assert c == Only(years[i - 1]);
      }
    }
  }
}
