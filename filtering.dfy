/** The sidebar filter and the three summary metrics computed from its result. */
module Filtering {
  import opened Records
  import opened Frames

  /** `df["Indicador"].isin(indicador_sel)` */
  function IndicatorMask(inds: seq<string>): Record -> bool
  {
    (r: Record) => r.indicador in inds
  }

  /** `df_filtrado["Ano"] == año_sel` */
  function YearMask(year: int): Record -> bool
  {
    (r: Record) => r.ano == year
  }

  /** `df_filtrado["Localidad"].isin(localidad_sel)` */
  function LocalityMask(locs: seq<string>): Record -> bool
  {
    (r: Record) => r.localidad in locs
  }

  /** The three conditions a row must meet to stay in the filtered table. */
  predicate Admits(sel: Selection, r: Record)
  {
    && r.indicador in sel.indicadores
    && (sel.ano.Todos? || r.ano == sel.ano.year)
    && r.localidad in sel.localidades
  }

  /** `df_filtrado`: the crime-type mask, then the year mask unless "Todos"
      is chosen, then the locality mask, applied one after the other. */
  function Filter(df: seq<Record>, sel: Selection): seq<Record>
  {
    var byIndicator := Select(df, IndicatorMask(sel.indicadores));
    var byYear := if sel.ano.Todos? then byIndicator else Select(byIndicator, YearMask(sel.ano.year));
    Select(byYear, LocalityMask(sel.localidades))
  }

  /** Each row occurs in the filtered table as often as in the input when it
      meets all three conditions, and not at all otherwise. */
  lemma FilterCounts(df: seq<Record>, sel: Selection, r: Record)
    ensures multiset(Filter(df, sel))[r] == if Admits(sel, r) then multiset(df)[r] else 0
  {
  }

  /** The filtered table is the input with exactly the rows that meet all
      three conditions, in input order, each as often as in the input. */
  lemma FilterSpec(df: seq<Record>, sel: Selection)
    ensures SubsequenceOf(Filter(df, sel), df)
    ensures forall r :: r in Filter(df, sel) <==> r in df && Admits(sel, r)
    ensures forall r :: multiset(Filter(df, sel))[r] == if Admits(sel, r) then multiset(df)[r] else 0
  {
    var byIndicator := Select(df, IndicatorMask(sel.indicadores));
    var byYear := if sel.ano.Todos? then byIndicator else Select(byIndicator, YearMask(sel.ano.year));
    if !sel.ano.Todos? {
      SubsequenceTransitive(byYear, byIndicator, df);
    }
    SubsequenceTransitive(Filter(df, sel), byYear, df);
    forall r ensures multiset(Filter(df, sel))[r] == if Admits(sel, r) then multiset(df)[r] else 0 {
      FilterCounts(df, sel, r);
    }
  }

  /** With no crime type or no locality selected nothing passes. */
  lemma FilterEmptySelection(df: seq<Record>, sel: Selection)
    requires sel.indicadores == [] || sel.localidades == []
    ensures Filter(df, sel) == []
  {
  }

  /** The three metric cards above the charts. */
  datatype Summary = Summary(totalDelitos: nat, numLocalidades: nat, numIndicadores: nat)

  /** `total_delitos`, `num_localidades` and `num_indicadores`: the sum of
      Valor and the number of distinct localities and crime types. */
  function Metrics(fs: seq<Record>): (m: Summary)
    ensures m.totalDelitos == Total(fs)
    ensures m.numLocalidades == |Distinct(fs, Localidad)|
    ensures m.numIndicadores == |Distinct(fs, Indicador)|
    ensures m.numLocalidades == 0 <==> fs == []
    ensures m.numIndicadores == 0 <==> fs == []
    ensures fs == [] ==> m.totalDelitos == 0
  {
    ColumnHoldsDistinct(fs, Localidad);
    ColumnHoldsDistinct(fs, Indicador);
    assert (set x | x in Column(fs, Localidad)) == Distinct(fs, Localidad);
    assert (set x | x in Column(fs, Indicador)) == Distinct(fs, Indicador);
    assert fs != [] ==> Localidad(fs[0]) in Distinct(fs, Localidad) && Indicador(fs[0]) in Distinct(fs, Indicador);
    Summary(Total(fs), CountDistinct(Column(fs, Localidad)), CountDistinct(Column(fs, Indicador)))
  }
}
