# Bogotá crime dashboard: the filter-and-aggregate pipeline

The dashboard loads a table of crime incidents for Bogotá (2008–2024). Each row
holds a year (`Ano`), a crime type (`Indicador`), a locality (`Localidad`) and an
incident count (`Valor`). The sidebar picks a year or "Todos", a list of crime
types and a list of localities. Every chart is then recomputed from one pure
pipeline, and this project models that pipeline in Dafny:

- the option lists of the sidebar: sorted distinct years, crime types and
  localities, and the year drop-down `["Todos"] + años` (module `Options`);
- the filter `df_filtrado`: crime-type mask, then the year mask unless "Todos",
  then the locality mask (module `Filtering`, built on the generic boolean-mask
  selection `Frames.Select`);
- the three metric cards: total incidents, distinct localities, distinct crime
  types (`Filtering.Metrics`);
- `groupby(col)["Valor"].sum()`, whose keys come out ascending (module `GroupBy`);
- `sort_values("Valor", ascending=False).head(n)` and the `Ranking` column
  (module `Ranking`);
- the concrete tables of the page: `df_mapa`, `df_bar` (top 10 localities),
  `df_delitos` (top 3 crime types) and `df_time` (yearly series over the whole
  table, restricted only by crime type), put together in `Dashboard.Render`.

Modelling choices:

- `Valor` is a natural number (an incident count). The `int(...)` cast of the
  total is then the identity.
- Python's `<` on `str` is modelled as code-point lexicographic order
  (`Ordering.StrLess`). It is proved to be a strict total order, and the generic
  sorting and grouping code is proved correct for any strict total order.
- The multi-select results are lists, as the widgets return them. Only membership
  matters to the filter: `Frames.SelectAgree` shows that two lists with the same
  members select the same rows.
- `sort_values` does not fix the order of rows with equal `Valor`. The model
  computes one order: an insertion sort that puts later rows first among equal
  values. Every property stated about top-n results (`Ranking.IsTopN`) holds
  for any tie order.
- The code does not normalise the GeoJSON join keys and computes no
  statistics: the GeoJSON is loaded as is, and the box plot at
  `dashboard_final.py:218-223` leaves quartiles and outliers to the plotting
  library. The model has neither.
- The multi-selects may be empty; the model handles that case
  (`Dashboard.EmptySelectionPanel`).

## Model

| member | source | states |
|---|---|---|
| `Frames.Select` | dashboard_final.py:79-84 | Boolean-mask selection keeps exactly the rows that pass the mask. They stay in input order (a subsequence), and each occurs as often as in the input. |
| `Frames.SelectAll` | dashboard_final.py:79-84 | A mask that every row passes selects the whole table unchanged. |
| `Frames.SelectAgree` | dashboard_final.py:62-66 | Two masks that agree on every row select the same rows. So two selection lists with the same members filter alike. |
| `Frames.Unique` | dashboard_final.py:65 | `unique()` holds exactly the values of the column, each once, in the order of their first appearance in the column. |
| `Frames.CountDistinct` | dashboard_final.py:87-88 | `nunique()` equals the number of distinct values in the column. |
| `Frames.Head` | dashboard_final.py:133 | `head(n)` is a prefix of length `min(n, len)`. |
| `Options.SortedUniqueSpec` | dashboard_final.py:59 | `sorted(col.unique())` is strictly ascending and holds exactly the column's values. It is the only list with both properties. |
| `Options.OptionListsSpec` | dashboard_final.py:59-73 | The year, crime-type and locality option lists are strictly ascending, so free of duplicates. Each holds exactly the values present in the table. |
| `Options.YearChoicesSpec` | dashboard_final.py:59-60 | The year drop-down offers "Todos" first and then exactly the years of the table. |
| `Filtering.FilterCounts` | dashboard_final.py:79-84 | A row occurs in `df_filtrado` as often as in `df` when it meets all three conditions, and not at all otherwise. |
| `Filtering.FilterSpec` | dashboard_final.py:79-84 | `df_filtrado` is a subsequence of `df`. A row is in it exactly when it is in `df` and meets the crime-type, year (unless "Todos") and locality conditions, with its input multiplicity. |
| `Filtering.FilterEmptySelection` | dashboard_final.py:79-84 | An empty crime-type or locality selection filters out every row. |
| `Filtering.Metrics` | dashboard_final.py:86-88 | The total is the sum of Valor. The two counts are the numbers of distinct localities and crime types. Each count is 0 exactly when the filtered table is empty, and then the total is 0 too. |
| `GroupBy.AccumulateSpec` | dashboard_final.py:99-103 | Adding one record to an ascending group-by result keeps the keys strictly ascending and adds the key if new. It adds the record's Valor to that key's value only, and raises the rows' total by that Valor. |
| `GroupBy.GroupSumSpec` | dashboard_final.py:99-103 | `groupby(col)["Valor"].sum()` has strictly ascending keys, exactly the keys present in the records (absent keys are not zero-filled), and one row per distinct key. Each row's Valor is the sum over that key's records, and the rows add up to the records' total. |
| `Ranking.InsertDesc` | dashboard_final.py:133 | Inserting a row into a non-increasing list keeps it non-increasing and adds exactly that row. |
| `Ranking.SortDesc` | dashboard_final.py:133 | `sort_values("Valor", ascending=False)` is non-increasing in Valor and is a permutation of its input. |
| `Ranking.TopNShape` | dashboard_final.py:158-159 | `sort_values(...).head(n)` has `min(n, len)` rows in non-increasing order. |
| `Ranking.TopNRow` | dashboard_final.py:133 | Every row of the top-n result is a row of the input. |
| `Ranking.TopNOmitted` | dashboard_final.py:133 | A row left out of the top-n result has a Valor no larger than any row kept. |
| `Ranking.TopNDistinctKeys` | dashboard_final.py:133 | When the group-by rows have distinct keys, the top-n result repeats no key. |
| `Ranking.TopNSpec` | dashboard_final.py:133 | The top-n result meets the tie-order-free description `IsTopN`: its length, non-increasing order, a sub-multiset of the input, and no omitted row larger than a kept one. |
| `Dashboard.MapaSpec` | dashboard_final.py:99-103 | `df_mapa` has one row per locality of the filtered table, in ascending name order. Each row holds that locality's sum, and localities with no rows are absent. Its rows add up to `total_delitos`, and it has `num_localidades` rows, no locality named twice. |
| `Dashboard.BarOmitted` | dashboard_final.py:133 | A locality missing from `df_bar` has a Valor no larger than any locality in it. |
| `Dashboard.BarSpec` | dashboard_final.py:133-134 | `df_bar` has `min(10, #localities)` rows, ranked 1, 2, ... consecutively, non-increasing in Valor. Each row is a row of `df_mapa`, and no omitted locality has a larger Valor than a kept one. When `df_mapa` names each locality once, no locality appears twice in `df_bar`. |
| `Dashboard.DelitosRow` | dashboard_final.py:155-157 | Each row of `df_delitos` holds a crime type present in the filtered table, with its total over that table. |
| `Dashboard.DelitosOmitted` | dashboard_final.py:155-160 | A crime type of the filtered table missing from `df_delitos` has a total no larger than any kept one. |
| `Dashboard.DelitosSpec` | dashboard_final.py:155-160 | `df_delitos` has `min(3, #crime types)` rows, so at most 3, no crime type twice. They are non-increasing, each is the crime type's total over the filtered table, and no omitted crime type has a strictly larger total. |
| `Dashboard.SerieSpec` | dashboard_final.py:181-185 | `df_time` has one row per year with rows of the selected crime types anywhere in the table, years strictly ascending. Each row is that year's sum, and the rows add up to the total of the crime-type-filtered table. |
| `Dashboard.SerieIgnoresYearAndLocality` | dashboard_final.py:181-185 | Two selections with the same crime types give the same `df_time`, whatever their year and localities. |
| `Dashboard.FullSelectionKeepsAll` | dashboard_final.py:79-84 | "Todos" with lists naming every crime type and locality of the table keeps the whole table, in order. |
| `Dashboard.DefaultSelectionKeepsAll` | dashboard_final.py:60-73 | The sidebar's defaults ("Todos", every crime type, every locality) filter nothing out. The yearly series then adds up to the total-incidents card. |
| `Dashboard.EmptySelectionPanel` | dashboard_final.py:79-160 | With no crime type or no locality selected, the filtered table, map, top-10 and top-3 tables are empty and all three metrics are 0. With no crime type the yearly series is empty too. |
| `Dashboard.ExampleAllYears` | dashboard_final.py:86-103 | Worked example, table (2020, Hurto, Suba, 10), (2020, Hurto, Usme, 5), (2021, Hurto, Suba, 3), every year: map Suba 13, Usme 5; metrics 18, 2, 1. |
| `Dashboard.ExampleOneYear` | dashboard_final.py:181-185 | Same table, year 2020: the map is Suba 10, Usme 5. The yearly series still shows 2020 → 15 and 2021 → 3. |

## Left out

- CSV and GeoJSON loading (`cargar_datos`, `cargar_geojson`), path building and the `st.cache_data` memoisation: file I/O and library caching. The table is a parameter of every function.
- Streamlit page setup, titles, widgets, metric cards and table display: user interface. The widgets' choices are the `Selection` parameter.
- Every Plotly figure: the choropleth and its GeoJSON join on `properties.LOCNOMBRE`, the bar charts, the line chart, the histogram binning and the box plot with its outlier points. These render inside a library that is not part of this model.
- Floating-point `Valor` and the truncation of `int(...)`: values are modelled as natural-number counts.
- The tie order of `sort_values` among equal values: pandas does not fix one, so no property depends on it.
- Missing values (NaN keys dropped by `groupby`, NaN Valor skipped by `sum`): the model's table has no missing values.
