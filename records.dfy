/** The incident table the dashboard loads: one row per year, crime type
    (indicator) and locality, with the number of incidents recorded. */
module Records {

  /** One row of the table, with the columns Ano, Indicador, Localidad and
      Valor. Valor is an incident count, so it is a natural number and the
      integer cast applied to its sum changes nothing. */
  datatype Record = Record(ano: int, indicador: string, localidad: string, valor: nat)

  /** The year drop-down: the sentinel "Todos" (every year) or one year. */
  datatype YearSel = Todos | Only(year: int)

  /** What the sidebar hands the pipeline: the chosen year and the lists of
      crime types and localities picked in the two multi-selects. */
  datatype Selection = Selection(ano: YearSel, indicadores: seq<string>, localidades: seq<string>)

  /** The three key columns, as functions, so that group-by and distinct-value
      operations can be written once for any of them. */
  function Ano(r: Record): int { r.ano }
  function Indicador(r: Record): string { r.indicador }
  function Localidad(r: Record): string { r.localidad }

  /** The sum of the Valor column (`df["Valor"].sum()`). */
  function Total(rs: seq<Record>): nat
  {
    if rs == [] then 0 else rs[0].valor + Total(rs[1..])
  }

  /** A column of the table, in row order (`df[col]`). */
  function Column<K>(rs: seq<Record>, col: Record -> K): seq<K>
  {
    seq(|rs|, i requires 0 <= i < |rs| => col(rs[i]))
  }

  /** The set of values a column takes. */
  ghost function Distinct<K>(rs: seq<Record>, col: Record -> K): set<K>
  {
    set r | r in rs :: col(r)
  }

  lemma ColumnHoldsDistinct<K>(rs: seq<Record>, col: Record -> K)
    ensures forall x :: x in Column(rs, col) <==> x in Distinct(rs, col)
  {
    var c := Column(rs, col);
    forall x | x in Distinct(rs, col) ensures x in c {
      var r :| r in rs && col(r) == x;
      var i :| 0 <= i < |rs| && rs[i] == r;
      assert c[i] == x;
    }
  }
}
