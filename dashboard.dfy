/** The filter-and-aggregate pipeline behind every chart of the dashboard:
    from the table and the sidebar selection to the filtered table, the
    metric cards, the map aggregation, the top-10 ranking, the top-3 crime
    types and the yearly series. */
module Dashboard {
  import opened Records
  import opened Ordering
  import opened Frames
  import opened Options
  import opened Filtering
  import opened GroupBy
  import opened Ranking

  /** `df_mapa`: Valor summed per locality over the filtered table. */
  function Mapa(fs: seq<Record>): seq<Row<string>>
  {
    GroupSum(fs, Localidad, StrLess)
  }

  /** `df_bar`: the ten localities of the map aggregation with the largest
      Valor, numbered from 1. */
  function Bar(mapa: seq<Row<string>>): seq<RankedRow>
  {
    WithRanking(TopN(mapa, 10))
  }

  /** `df_delitos`: the three crime types with the largest summed Valor. */
  function Delitos(fs: seq<Record>): seq<Row<string>>
  {
    TopN(GroupSum(fs, Indicador, StrLess), 3)
  }

  /** `df_time`: Valor summed per year over the whole table, restricted to the
      selected crime types only. */
  function Serie(df: seq<Record>, inds: seq<string>): seq<Row<int>>
  {
    GroupSum(Select(df, IndicatorMask(inds)), Ano, IntLess)
  }

  /** Everything the page shows, recomputed on every change of the sidebar. */
  datatype Panel = Panel(
    filtrado: seq<Record>,
    resumen: Summary,
    mapa: seq<Row<string>>,
    bar: seq<RankedRow>,
    delitos: seq<Row<string>>,
    serie: seq<Row<int>>)

  function Render(df: seq<Record>, sel: Selection): Panel
  {
    var fs := Filter(df, sel);
    var mapa := Mapa(fs);
    Panel(fs, Metrics(fs), mapa, Bar(mapa), Delitos(fs), Serie(df, sel.indicadores))
  }

  /** The sidebar as first shown: "Todos", the crime types in order of first
      appearance (`default=df["Indicador"].unique()`), and every locality. */
  function DefaultSelection(df: seq<Record>): Selection
  {
    Selection(Todos, Unique(Column(df, Indicador)), LocalityOptions(df))
  }

  /** The map aggregation: one row per locality of the filtered table, in
      ascending name order, each holding that locality's sum; localities with
      no filtered rows are absent. Its rows add up to the total-incidents
      card and are as many as the localities card says. */
  lemma MapaSpec(fs: seq<Record>)
    ensures StrictlyAscending(Keys(Mapa(fs)), StrLess)
    ensures forall loc :: loc in Keys(Mapa(fs)) <==> exists r :: r in fs && r.localidad == loc
    ensures forall i :: 0 <= i < |Mapa(fs)| ==> Mapa(fs)[i].valor == SumFor(fs, Localidad, Mapa(fs)[i].key)
    ensures RowsTotal(Mapa(fs)) == Metrics(fs).totalDelitos
    ensures |Mapa(fs)| == Metrics(fs).numLocalidades
    ensures DistinctKeys(Mapa(fs))
  {
    StrLessIsStrictTotal();
    GroupSumSpec(fs, Localidad, StrLess);
    AscendingKeysDistinct(Mapa(fs), StrLess);
  }

  /** A row of the map aggregation that did not make the top-10 table has a
      Valor no larger than any row that did. */
  lemma BarOmitted(mapa: seq<Row<string>>, x: Row<string>, i: nat)
    requires x in mapa && i < |Bar(mapa)|
    requires forall j :: 0 <= j < |Bar(mapa)| ==> Bar(mapa)[j].localidad != x.key
    ensures x.valor <= Bar(mapa)[i].valor
  {
    var top := TopN(mapa, 10);
    forall j | 0 <= j < |top| ensures top[j] != x {
      assert Bar(mapa)[j].localidad == top[j].key;
    }
    assert multiset(top)[x] < multiset(mapa)[x];
    TopNOmitted(mapa, 10, x, i);
  }

  /** The top-10 table: `min(10, n)` rows of the map aggregation, ranked 1, 2,
      ... in non-increasing Valor, and no locality left out has a larger Valor
      than one kept. When the map aggregation names each locality once, as
      `MapaSpec` shows it does, so does the top-10 table. */
  lemma BarSpec(mapa: seq<Row<string>>)
    ensures |Bar(mapa)| == if |mapa| < 10 then |mapa| else 10
    ensures forall i :: 0 <= i < |Bar(mapa)| ==> Bar(mapa)[i].ranking == i + 1
    ensures forall i, j :: 0 <= i < j < |Bar(mapa)| ==> Bar(mapa)[i].valor >= Bar(mapa)[j].valor
    ensures forall i :: 0 <= i < |Bar(mapa)| ==> Row(Bar(mapa)[i].localidad, Bar(mapa)[i].valor) in mapa
    ensures forall x, i :: x in mapa && 0 <= i < |Bar(mapa)|
              && (forall j :: 0 <= j < |Bar(mapa)| ==> Bar(mapa)[j].localidad != x.key)
              ==> x.valor <= Bar(mapa)[i].valor
    ensures DistinctKeys(mapa) ==>
              forall i, j :: 0 <= i < j < |Bar(mapa)| ==> Bar(mapa)[i].localidad != Bar(mapa)[j].localidad
  {
    var top := TopN(mapa, 10);
    var b := Bar(mapa);
    TopNShape(mapa, 10);
    if DistinctKeys(mapa) {
      TopNDistinctKeys(mapa, 10);
      assert forall i :: 0 <= i < |b| ==> b[i].localidad == top[i].key;
    }
    assert |b| == |top|;
    forall i | 0 <= i < |b| ensures Row(b[i].localidad, b[i].valor) in mapa {
      assert Row(b[i].localidad, b[i].valor) == top[i];
      TopNRow(mapa, 10, i);
    }
    forall x, i | x in mapa && 0 <= i < |b| && (forall j :: 0 <= j < |b| ==> b[j].localidad != x.key)
      ensures x.valor <= b[i].valor
    {
      BarOmitted(mapa, x, i);
    }
  }

  /** A crime type of the filtered table that did not make the top three has
      a total no larger than any that did. */
  lemma DelitosOmitted(fs: seq<Record>, n: string, i: nat)
    requires exists r :: r in fs && r.indicador == n
    requires n !in Keys(Delitos(fs)) && i < |Delitos(fs)|
    ensures SumFor(fs, Indicador, n) <= Delitos(fs)[i].valor
  {
    var g := GroupSum(fs, Indicador, StrLess);
    var d := Delitos(fs);
    StrLessIsStrictTotal();
    GroupSumSpec(fs, Indicador, StrLess);
    assert n in Keys(g);
    var j :| 0 <= j < |g| && Keys(g)[j] == n;
    var x := g[j];
    forall k | 0 <= k < |d| ensures d[k] != x {
      assert Keys(d)[k] == d[k].key;
    }
    assert multiset(d)[x] < multiset(g)[x];
    TopNOmitted(g, 3, x, i);
  }

  /** Each row of the top crime types is a row of the per-type aggregation. */
  lemma DelitosRow(fs: seq<Record>, i: nat)
    requires i < |Delitos(fs)|
    ensures Delitos(fs)[i].valor == SumFor(fs, Indicador, Delitos(fs)[i].key)
    ensures exists r :: r in fs && r.indicador == Delitos(fs)[i].key
  {
    var g := GroupSum(fs, Indicador, StrLess);
    var d := Delitos(fs);
    StrLessIsStrictTotal();
    GroupSumSpec(fs, Indicador, StrLess);
    TopNRow(g, 3, i);
    var j :| 0 <= j < |g| && g[j] == d[i];
    assert Keys(g)[j] == d[i].key;
    assert d[i].key in Keys(g);
    var r :| r in fs && Indicador(r) == d[i].key;
    assert r.indicador == d[i].key;
  }

  /** The top crime types: at most three, each named once, non-increasing,
      each with its total over the filtered table, and no crime type left out
      has a strictly larger total than one kept. */
  lemma DelitosSpec(fs: seq<Record>)
    ensures |Delitos(fs)| == if |Distinct(fs, Indicador)| < 3 then |Distinct(fs, Indicador)| else 3
    ensures forall i, j :: 0 <= i < j < |Delitos(fs)| ==> Delitos(fs)[i].valor >= Delitos(fs)[j].valor
    ensures forall i :: 0 <= i < |Delitos(fs)| ==>
              Delitos(fs)[i].valor == SumFor(fs, Indicador, Delitos(fs)[i].key)
              && exists r :: r in fs && r.indicador == Delitos(fs)[i].key
    ensures forall n, i :: (exists r :: r in fs && r.indicador == n) && n !in Keys(Delitos(fs)) && 0 <= i < |Delitos(fs)| ==>
              SumFor(fs, Indicador, n) <= Delitos(fs)[i].valor
    ensures DistinctKeys(Delitos(fs))
  {
    var g := GroupSum(fs, Indicador, StrLess);
    StrLessIsStrictTotal();
    GroupSumSpec(fs, Indicador, StrLess);
    TopNSpec(g, 3);
    AscendingKeysDistinct(g, StrLess);
    TopNDistinctKeys(g, 3);
    forall i | 0 <= i < |Delitos(fs)|
      ensures Delitos(fs)[i].valor == SumFor(fs, Indicador, Delitos(fs)[i].key)
      ensures exists r :: r in fs && r.indicador == Delitos(fs)[i].key
    {
      DelitosRow(fs, i);
    }
    forall n, i | (exists r :: r in fs && r.indicador == n) && n !in Keys(Delitos(fs)) && 0 <= i < |Delitos(fs)|
      ensures SumFor(fs, Indicador, n) <= Delitos(fs)[i].valor
    {
      DelitosOmitted(fs, n, i);
    }
  }

  /** The yearly series: one row per year that has rows of the selected crime
      types anywhere in the table, years ascending, each the sum of those rows. */
  lemma SerieSpec(df: seq<Record>, inds: seq<string>)
    ensures forall i, j :: 0 <= i < j < |Serie(df, inds)| ==> Serie(df, inds)[i].key < Serie(df, inds)[j].key
    ensures forall y :: y in Keys(Serie(df, inds)) <==> exists r :: r in df && r.indicador in inds && r.ano == y
    ensures forall i :: 0 <= i < |Serie(df, inds)| ==>
              Serie(df, inds)[i].valor == SumFor(Select(df, IndicatorMask(inds)), Ano, Serie(df, inds)[i].key)
    ensures RowsTotal(Serie(df, inds)) == Total(Select(df, IndicatorMask(inds)))
  {
    var s := Serie(df, inds);
    IntLessIsStrictTotal();
    GroupSumSpec(Select(df, IndicatorMask(inds)), Ano, IntLess);
    forall i, j | 0 <= i < j < |s| ensures s[i].key < s[j].key {
      assert IntLess(Keys(s)[i], Keys(s)[j]);
    }
  }

  /** The yearly series ignores the year and locality choices: two selections
      that pick the same crime types give the same series. */
  lemma SerieIgnoresYearAndLocality(df: seq<Record>, sel1: Selection, sel2: Selection)
    requires forall n :: n in sel1.indicadores <==> n in sel2.indicadores
    ensures Render(df, sel1).serie == Render(df, sel2).serie
  {
    SelectAgree(df, IndicatorMask(sel1.indicadores), IndicatorMask(sel2.indicadores));
  }

  /** "Todos" with lists that name every crime type and locality of the
      table keeps the whole table, in order. */
  lemma {:induction false} FullSelectionKeepsAll(df: seq<Record>, sel: Selection)
    requires sel.ano == Todos
    requires forall r :: r in df ==> r.indicador in sel.indicadores && r.localidad in sel.localidades
    ensures Filter(df, sel) == df
  {
    SelectAll(df, IndicatorMask(sel.indicadores));
    SelectAll(df, LocalityMask(sel.localidades));
  }

  /** The sidebar as first shown filters nothing out, and the yearly series
      then adds up to the total-incidents card. */
  lemma DefaultSelectionKeepsAll(df: seq<Record>)
    ensures Render(df, DefaultSelection(df)).filtrado == df
    ensures RowsTotal(Render(df, DefaultSelection(df)).serie) == Render(df, DefaultSelection(df)).resumen.totalDelitos
  {
    var sel := DefaultSelection(df);
    OptionListsSpec(df);
    ColumnHoldsDistinct(df, Indicador);
    FullSelectionKeepsAll(df, sel);
    SerieSpec(df, sel.indicadores);
    SelectAll(df, IndicatorMask(sel.indicadores));
  }

  /** No crime type or no locality selected: every table and card is empty
      or zero; with no crime type the yearly series is empty too. */
  lemma EmptySelectionPanel(df: seq<Record>, sel: Selection)
    requires sel.indicadores == [] || sel.localidades == []
    ensures Render(df, sel).filtrado == []
    ensures Render(df, sel).resumen == Summary(0, 0, 0)
    ensures Render(df, sel).mapa == [] && Render(df, sel).bar == [] && Render(df, sel).delitos == []
    ensures sel.indicadores == [] ==> Render(df, sel).serie == []
  {
  }

  /** The table of the worked examples below: two localities, one crime
      type, two years. */
  function ExampleTable(): seq<Record>
  {
    [Record(2020, "Hurto", "Suba", 10), Record(2020, "Hurto", "Usme", 5), Record(2021, "Hurto", "Suba", 3)]
  }

  lemma ExampleLocalityGroups()
    ensures Mapa(ExampleTable()) == [Row("Suba", 13), Row("Usme", 5)]
  {
    var g2 := GroupSum([Record(2021, "Hurto", "Suba", 3)], Localidad, StrLess);
    assert g2 == [Row("Suba", 3)];
    var g1 := GroupSum([Record(2020, "Hurto", "Usme", 5), Record(2021, "Hurto", "Suba", 3)], Localidad, StrLess);
    assert g1 == Accumulate(g2, "Usme", 5, StrLess);
    assert "Suba" != "Usme" && !StrLess("Usme", "Suba");
    assert g2[1..] == [] && Accumulate([], "Usme", 5, StrLess) == [Row("Usme", 5)];
    assert g1 == [Row("Suba", 3), Row("Usme", 5)];
    assert Mapa(ExampleTable()) == Accumulate(g1, "Suba", 10, StrLess);
  }

  lemma ExampleIndicatorMask()
    ensures Select(ExampleTable(), IndicatorMask(["Hurto"])) == ExampleTable()
  {
    SelectAll(ExampleTable(), IndicatorMask(["Hurto"]));
  }

  lemma ExampleLocalityMask()
    ensures Select(ExampleTable()[..2], LocalityMask(["Suba", "Usme"])) == ExampleTable()[..2]
  {
    SelectAll(ExampleTable()[..2], LocalityMask(["Suba", "Usme"]));
  }

  lemma ExampleYearGroups()
    ensures Serie(ExampleTable(), ["Hurto"]) == [Row(2020, 15), Row(2021, 3)]
  {
    var df := ExampleTable();
    ExampleIndicatorMask();
    assert GroupSum(df[2..], Ano, IntLess) == [Row(2021, 3)];
    assert GroupSum(df[1..], Ano, IntLess) == [Row(2020, 5), Row(2021, 3)];
  }

  lemma ExampleYearMask()
    ensures Select(ExampleTable(), YearMask(2020)) == ExampleTable()[..2]
  {
    var df := ExampleTable();
    assert Select(df[2..], YearMask(2020)) == [];
    assert Select(df[1..], YearMask(2020)) == [df[1]];
  }

  lemma ExampleOneYearFilter()
    ensures Filter(ExampleTable(), Selection(Only(2020), ["Hurto"], ["Suba", "Usme"])) == ExampleTable()[..2]
  {
    ExampleIndicatorMask();
    ExampleYearMask();
    ExampleLocalityMask();
  }

  lemma ExampleOneYearGroups()
    ensures Mapa(ExampleTable()[..2]) == [Row("Suba", 10), Row("Usme", 5)]
  {
    var df := ExampleTable()[..2];
    var usme := [Record(2020, "Hurto", "Usme", 5)];
    assert df[1..] == usme && usme[1..] == [];
    assert GroupSum(usme, Localidad, StrLess) == Accumulate([], "Usme", 5, StrLess) == [Row("Usme", 5)];
    assert "Suba"[0] != "Usme"[0] && StrLess("Suba", "Usme");
    assert Mapa(df) == Accumulate([Row("Usme", 5)], "Suba", 10, StrLess);
  }

  lemma ExampleMetrics()
    ensures Metrics(ExampleTable()) == Summary(18, 2, 1)
  {
    var df := ExampleTable();
    assert Total(df) == 18;
    assert forall r :: r in df ==> r == df[0] || r == df[1] || r == df[2];
    assert df[0] in df && df[1] in df && df[2] in df;
    assert |Distinct(df, Localidad)| == 2 by {
      assert Distinct(df, Localidad) == {"Suba", "Usme"};
      assert "Suba" != "Usme";
    }
    assert |Distinct(df, Indicador)| == 1 by {
      assert Distinct(df, Indicador) == {"Hurto"};
    }
  }

  /** Every year and both localities: Suba sums both of its years. */
  lemma ExampleAllYears()
    ensures Render(ExampleTable(), Selection(Todos, ["Hurto"], ["Suba", "Usme"])).mapa == [Row("Suba", 13), Row("Usme", 5)]
    ensures Render(ExampleTable(), Selection(Todos, ["Hurto"], ["Suba", "Usme"])).resumen == Summary(18, 2, 1)
  {
    FullSelectionKeepsAll(ExampleTable(), Selection(Todos, ["Hurto"], ["Suba", "Usme"]));
    ExampleLocalityGroups();
    ExampleMetrics();
  }

  /** Year 2020 only: the map keeps that year, the yearly series does not. */
  lemma ExampleOneYear()
    ensures Render(ExampleTable(), Selection(Only(2020), ["Hurto"], ["Suba", "Usme"])).mapa == [Row("Suba", 10), Row("Usme", 5)]
    ensures Render(ExampleTable(), Selection(Only(2020), ["Hurto"], ["Suba", "Usme"])).serie == [Row(2020, 15), Row(2021, 3)]
  {
    ExampleOneYearFilter();
    ExampleOneYearGroups();
    ExampleYearGroups();
  }
}
