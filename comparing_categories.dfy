/** The data behind the category charts: the World bar chart of average
    energy by source, the per-capita pivot by year, the CO2 heatmap, the
    stacked means per country and source, the stacked-chart labels and the
    fossil-fuel waffles. */
module ComparingCategories {
  import opened Collections
  import opened Text
  import opened Js

  /** The ten European countries every chart of this page draws, in drawing order. */
  const Countries: seq<string> := [
    "Italy", "France", "Germany", "Spain", "United Kingdom",
    "Sweden", "Norway", "Netherlands", "Greece", "Switzerland"
  ]

  const RecentYears: seq<string> := ["2022", "2023", "2024"]

  const HeatmapYears: seq<string> := ["2021", "2022", "2023"]

  /** The numbers of column `col`, one per row, as unary `+` reads them. */
  function ColumnValues(rows: seq<Row>, col: string, rd: Reader): seq<Num>
  {
    seq(|rows|, i requires 0 <= i < |rows| => PlusCell(rd, Field(rows[i], col)))
  }

  // ----- World bar chart -----

  predicate IsWorldRecent(r: Row)
  {
    FieldIn(r, "Year", RecentYears) && Field(r, "Entity") == Some("World")
  }

  predicate IsEnergyCol(c: string)
  {
    c != "Entity" && c != "Code" && c != "Year"
  }

  const RenameMap: map<string, string> := map[
    "Other renewables (TWh, substituted energy)" := "Other renewables",
    "Biofuels (TWh, substituted energy)" := "Biofuels",
    "Solar (TWh, substituted energy)" := "Solar",
    "Wind (TWh, substituted energy)" := "Wind",
    "Hydropower (TWh, substituted energy)" := "Hydropower",
    "Nuclear (TWh, substituted energy)" := "Nuclear",
    "Gas (TWh, substituted energy)" := "Gas",
    "Oil (TWh, substituted energy)" := "Oil",
    "Coal (TWh, substituted energy)" := "Coal",
    "Traditional biomass (TWh, substituted energy)" := "Biomass"
  ]

  /** `renameMap[col] || col` */
  function BarName(col: string): string
  {
    if col in RenameMap then RenameMap[col] else col
  }

  datatype Bar = Bar(name: string, value: Num)

  /** One bar per energy column of the header, valued by the column's mean over
      the World rows of 2022-2024; `None` when there is no such row and the
      chart is not drawn. */
  function WorldBars(header: seq<string>, rows: seq<Row>, rd: Reader): (r: Option<seq<Bar>>)
    ensures r.None? <==> forall i :: 0 <= i < |rows| ==> !IsWorldRecent(rows[i])
    ensures r.Some? ==>
      var cols := Filter(header, IsEnergyCol);
      var selected := Filter(rows, IsWorldRecent);
      |r.value| == |cols| &&
      forall i :: 0 <= i < |cols| ==>
        r.value[i].name == BarName(cols[i]) && r.value[i].value == Mean(ColumnValues(selected, cols[i], rd))
  {
    var selected := Filter(rows, IsWorldRecent);
    if selected == [] then
      assert forall i :: 0 <= i < |rows| ==> !IsWorldRecent(rows[i]) by {
        forall i | 0 <= i < |rows| ensures !IsWorldRecent(rows[i]) {
          assert rows[i] in rows;
        }
      }
      None
    else
      var cols := Filter(header, IsEnergyCol);
      assert selected[0] in rows;
      Some(seq(|cols|, i requires 0 <= i < |cols| => Bar(BarName(cols[i]), Mean(ColumnValues(selected, cols[i], rd)))))
  }

  /** A bar is a number exactly when some selected row has a number in its column,
      and then it lies between the least and greatest of those numbers. */
  lemma WorldBarRange(header: seq<string>, rows: seq<Row>, rd: Reader, i: nat, lo: real, hi: real)
    requires WorldBars(header, rows, rd).Some?
    requires i < |Filter(header, IsEnergyCol)|
    requires FiniteWithin(ColumnValues(Filter(rows, IsWorldRecent), Filter(header, IsEnergyCol)[i], rd), lo, hi)
    ensures var b := WorldBars(header, rows, rd).value[i].value;
            b.IsFinite() ==> lo <= b.r <= hi
  {
    var xs := ColumnValues(Filter(rows, IsWorldRecent), Filter(header, IsEnergyCol)[i], rd);
    MeanWithin(xs, lo, hi);
  }

  // ----- Per-capita pivot -----

  const PerCapitaCol := "Primary energy consumption per capita (kWh/person)"

  predicate InPivot(r: Row)
  {
    FieldIn(r, "Entity", Countries) && FieldIn(r, "Year", RecentYears)
  }

  predicate IsCountryYear(r: Row, country: string, year: string)
  {
    Field(r, "Entity") == Some(country) && Field(r, "Year") == Some(year)
  }

  function OfCountryYear(country: string, year: string): Row -> bool
  {
    r => IsCountryYear(r, country, year)
  }

  /** `row ? row.value : 0` for the first filtered row of the pair. */
  function PivotValue(filtered: seq<Row>, country: string, year: string, rd: Reader): Num
  {
    match Find(filtered, OfCountryYear(country, year))
    case None => Finite(0.0)
    case Some(r) => PlusCell(rd, Field(r, PerCapitaCol))
  }

  /** The filtered lookup finds the same row as a lookup over all rows. */
  lemma PivotFind(rows: seq<Row>, country: string, year: string)
    requires country in Countries && year in RecentYears
    ensures Find(Filter(rows, InPivot), OfCountryYear(country, year)) == Find(rows, OfCountryYear(country, year))
  {
    var p := OfCountryYear(country, year);
    assert forall x :: p(x) ==> InPivot(x);
    FindFilter(rows, InPivot, p);
  }

  /** The first row of a pair decides its value, and a pair without a row is 0. */
  lemma PivotValueFirst(rows: seq<Row>, country: string, year: string, rd: Reader)
    requires country in Countries && year in RecentYears
    ensures (forall j :: 0 <= j < |rows| ==> !IsCountryYear(rows[j], country, year)) ==>
            PivotValue(Filter(rows, InPivot), country, year, rd) == Finite(0.0)
    ensures forall j :: 0 <= j < |rows| && IsCountryYear(rows[j], country, year) &&
                        (forall k :: 0 <= k < j ==> !IsCountryYear(rows[k], country, year)) ==>
            PivotValue(Filter(rows, InPivot), country, year, rd) == PlusCell(rd, Field(rows[j], PerCapitaCol))
  {
    if forall j :: 0 <= j < |rows| ==> !IsCountryYear(rows[j], country, year) {
      PivotValueNone(rows, country, year, rd);
    }
    forall j | 0 <= j < |rows| && IsCountryYear(rows[j], country, year) &&
               (forall k :: 0 <= k < j ==> !IsCountryYear(rows[k], country, year))
      ensures PivotValue(Filter(rows, InPivot), country, year, rd) == PlusCell(rd, Field(rows[j], PerCapitaCol))
    {
      PivotFind(rows, country, year);
      FirstOfPair(rows, country, year, j);
    }
  }

  /** A pair without a row is 0. */
  lemma PivotValueNone(rows: seq<Row>, country: string, year: string, rd: Reader)
    requires country in Countries && year in RecentYears
    requires forall j :: 0 <= j < |rows| ==> !IsCountryYear(rows[j], country, year)
    ensures PivotValue(Filter(rows, InPivot), country, year, rd) == Finite(0.0)
  {
    PivotFind(rows, country, year);
    var p := OfCountryYear(country, year);
    assert forall j :: 0 <= j < |rows| ==> !p(rows[j]);
  }

  /** The lookup of a pair finds the first row that has it. */
  lemma FirstOfPair(rows: seq<Row>, country: string, year: string, j: nat)
    requires j < |rows| && IsCountryYear(rows[j], country, year)
    requires forall k :: 0 <= k < j ==> !IsCountryYear(rows[k], country, year)
    ensures Find(rows, OfCountryYear(country, year)) == Some(rows[j])
  {
    var p := OfCountryYear(country, year);
    assert p(rows[j]);
    assert forall k :: 0 <= k < j ==> !p(rows[k]);
    FindFirst(rows, p, j);
  }

  /** One record per listed country, in list order, holding a number for each of
      2022, 2023 and 2024: the per-capita value of the first row for that
      country and year, or 0 when there is none. */
  function Pivot(rows: seq<Row>, rd: Reader): (r: seq<(string, map<string, Num>)>)
    ensures |r| == |Countries|
    ensures forall i :: 0 <= i < |r| ==> r[i].0 == Countries[i] && r[i].1.Keys == set y | y in RecentYears
    ensures forall i, y :: 0 <= i < |r| && y in RecentYears ==>
      ((forall j :: 0 <= j < |rows| ==> !IsCountryYear(rows[j], Countries[i], y)) ==> r[i].1[y] == Finite(0.0))
    ensures forall i, y, j ::
      (0 <= i < |r| && y in RecentYears && 0 <= j < |rows| && IsCountryYear(rows[j], Countries[i], y) &&
       forall k :: 0 <= k < j ==> !IsCountryYear(rows[k], Countries[i], y)) ==>
      r[i].1[y] == PlusCell(rd, Field(rows[j], PerCapitaCol))
  {
    var filtered := Filter(rows, InPivot);
    var r := seq(|Countries|, i requires 0 <= i < |Countries| =>
      (Countries[i], map y | y in RecentYears :: PivotValue(filtered, Countries[i], y, rd)));
    forall i, y | 0 <= i < |r| && y in RecentYears {
      PivotValueFirst(rows, Countries[i], y, rd);
    }
    r
  }

  // ----- CO2 heatmap -----

  const Co2Col := "Annual_CO2_emissions"

  datatype HeatCell = HeatCell(country: string, year: string, co2: real)

  /** The row function given to `d3.csv`: a row is kept when its CO2 cell is a
      number and its trimmed Entity and Year are non-empty. */
  function ParseHeatRow(r: Row, rd: Reader): (c: Option<HeatCell>)
    ensures c.Some? <==> "Year" in r && Trim(r["Year"]) != [] && "Entity" in r && Trim(r["Entity"]) != [] &&
                         PlusCell(rd, Field(r, Co2Col)).IsFinite()
    ensures c.Some? ==> c.value == HeatCell(Trim(r["Entity"]), Trim(r["Year"]), PlusCell(rd, Field(r, Co2Col)).r)
  {
    var year: Option<string> := if "Year" in r && r["Year"] != [] then Some(Trim(r["Year"])) else None;
    var country: Option<string> := if "Entity" in r && r["Entity"] != [] then Some(Trim(r["Entity"])) else None;
    var co2 := PlusCell(rd, Field(r, Co2Col));
    assert "Year" in r && r["Year"] == [] ==> Trim(r["Year"]) == [];
    assert "Entity" in r && r["Entity"] == [] ==> Trim(r["Entity"]) == [];
    if !co2.IsFinite() || country.None? || country.value == [] || year.None? || year.value == [] then None
    else Some(HeatCell(country.value, year.value, co2.r))
  }

  predicate IsPair(d: HeatCell, country: string, year: string)
  {
    d.country == country && d.year == year
  }

  /** `data.find(d => d.Country === c && d.Year === y)` */
  function FirstPair(data: seq<HeatCell>, c: string, y: string): (r: Option<HeatCell>)
    ensures r.None? <==> forall d :: d in data ==> !IsPair(d, c, y)
    ensures r.Some? ==> r.value in data && IsPair(r.value, c, y)
  {
    var r := Find(data, d => IsPair(d, c, y));
    assert r.None? ==> forall d :: d in data ==> !IsPair(d, c, y) by {
      if r.None? {
        forall d | d in data ensures !IsPair(d, c, y) {
          var i :| 0 <= i < |data| && data[i] == d;
        }
      }
    }
    r
  }

  /** `years.map(year => data.find(...)).filter(d => d)` for one country, over `ys[j..]`. */
  function CellsFrom(data: seq<HeatCell>, c: string, ys: seq<string>, j: nat): (r: seq<HeatCell>)
    requires j <= |ys|
    ensures |r| <= |ys| - j
    decreases |ys| - j
  {
    if j == |ys| then []
    else
      var rest := CellsFrom(data, c, ys, j + 1);
      match FirstPair(data, c, ys[j])
      case None => rest
      case Some(d) => [d] + rest
  }

  /** Every cell of `r` is the first data row for country `c` and one of the
      years from `ys[j]` on. */
  predicate CountryCells(data: seq<HeatCell>, c: string, ys: seq<string>, j: nat, r: seq<HeatCell>)
  {
    forall k :: 0 <= k < |r| ==>
      r[k].country == c && j <= IndexIn(ys, r[k].year) < |ys| && FirstPair(data, c, r[k].year) == Some(r[k])
  }

  lemma {:induction false} CellsFromShape(data: seq<HeatCell>, c: string, ys: seq<string>, j: nat)
    requires j <= |ys| && Distinct(ys)
    ensures CountryCells(data, c, ys, j, CellsFrom(data, c, ys, j))
    decreases |ys| - j
  {
    if j < |ys| {
      CellsFromShape(data, c, ys, j + 1);
      var rest := CellsFrom(data, c, ys, j + 1);
      var f := FirstPair(data, c, ys[j]);
      if f.Some? {
        var r := [f.value] + rest;
        IndexInDistinct(ys, j);
        forall k | 0 <= k < |r|
          ensures r[k].country == c && j <= IndexIn(ys, r[k].year) < |ys| && FirstPair(data, c, r[k].year) == Some(r[k])
        {
          if k == 0 {
            assert r[0] == f.value && f.value.year == ys[j];
          } else {
            assert r[k] == rest[k - 1];
          }
        }
      }
    }
  }

  /** The cells of `r` follow the order of the year list. */
  predicate YearOrdered(ys: seq<string>, r: seq<HeatCell>)
  {
    forall k1, k2 :: 0 <= k1 < k2 < |r| ==> IndexIn(ys, r[k1].year) < IndexIn(ys, r[k2].year)
  }

  lemma YearOrderedCons(ys: seq<string>, x: HeatCell, rest: seq<HeatCell>)
    requires YearOrdered(ys, rest)
    requires forall k :: 0 <= k < |rest| ==> IndexIn(ys, x.year) < IndexIn(ys, rest[k].year)
    ensures YearOrdered(ys, [x] + rest)
  {
    var r := [x] + rest;
    forall k1, k2 | 0 <= k1 < k2 < |r| ensures IndexIn(ys, r[k1].year) < IndexIn(ys, r[k2].year) {
      assert r[k2] == rest[k2 - 1];
      if k1 > 0 {
        assert r[k1] == rest[k1 - 1];
      }
    }
  }

  lemma {:induction false} CellsFromOrder(data: seq<HeatCell>, c: string, ys: seq<string>, j: nat)
    requires j <= |ys| && Distinct(ys)
    ensures YearOrdered(ys, CellsFrom(data, c, ys, j))
    decreases |ys| - j
  {
    if j < |ys| {
      CellsFromOrder(data, c, ys, j + 1);
      CellsFromShape(data, c, ys, j + 1);
      var rest := CellsFrom(data, c, ys, j + 1);
      var f := FirstPair(data, c, ys[j]);
      if f.Some? {
        IndexInDistinct(ys, j);
        YearOrderedCons(ys, f.value, rest);
      }
    }
  }

  /** A year from `ys[j]` on has a cell in `r` exactly when some data row has
      country `c` and that year. */
  predicate YearsCovered(data: seq<HeatCell>, c: string, ys: seq<string>, j: nat, r: seq<HeatCell>)
  {
    forall m :: j <= m < |ys| ==> (HasYearCell(r, ys[m]) <==> exists d :: d in data && IsPair(d, c, ys[m]))
  }

  /** Some cell of `r` is of year `y`. */
  predicate HasYearCell(r: seq<HeatCell>, y: string)
  {
    exists k :: 0 <= k < |r| && r[k].year == y
  }

  /** A cell for year `ys[m]` exists once some data row has the pair. */
  lemma {:induction false} CellsFromHas(data: seq<HeatCell>, c: string, ys: seq<string>, j: nat, m: nat, d: HeatCell)
    requires j <= m < |ys| && d in data && IsPair(d, c, ys[m])
    ensures exists k :: 0 <= k < |CellsFrom(data, c, ys, j)| && CellsFrom(data, c, ys, j)[k].year == ys[m]
    decreases m - j
  {
    var r := CellsFrom(data, c, ys, j);
    var f := FirstPair(data, c, ys[j]);
    if m == j {
      assert r[0].year == ys[m];
    } else {
      CellsFromHas(data, c, ys, j + 1, m, d);
      var rest := CellsFrom(data, c, ys, j + 1);
      var k :| 0 <= k < |rest| && rest[k].year == ys[m];
      if f.Some? {
        assert r[k + 1].year == ys[m];
      } else {
        assert r[k].year == ys[m];
      }
    }
  }

  /** Year `ys[m]` has a cell in `CellsFrom(data, c, ys, j)` exactly when some
      data row has country `c` and that year. */
  lemma CellsFromYear(data: seq<HeatCell>, c: string, ys: seq<string>, j: nat, m: nat)
    requires j <= m < |ys| && Distinct(ys)
    ensures HasYearCell(CellsFrom(data, c, ys, j), ys[m]) <==> exists d :: d in data && IsPair(d, c, ys[m])
  {
    var r := CellsFrom(data, c, ys, j);
    if exists k :: 0 <= k < |r| && r[k].year == ys[m] {
      CellsFromShape(data, c, ys, j);
      var k :| 0 <= k < |r| && r[k].year == ys[m];
      assert FirstPair(data, c, r[k].year) == Some(r[k]);
    }
    if exists d :: d in data && IsPair(d, c, ys[m]) {
      var d :| d in data && IsPair(d, c, ys[m]);
      CellsFromHas(data, c, ys, j, m, d);
    }
  }

  lemma CellsFromCover(data: seq<HeatCell>, c: string, ys: seq<string>, j: nat)
    requires j <= |ys| && Distinct(ys)
    ensures YearsCovered(data, c, ys, j, CellsFrom(data, c, ys, j))
  {
    var r := CellsFrom(data, c, ys, j);
    forall m | j <= m < |ys|
      ensures HasYearCell(r, ys[m]) <==> exists d :: d in data && IsPair(d, c, ys[m])
    {
      CellsFromYear(data, c, ys, j, m);
    }
  }

  /** `countries.flatMap(...)` over `cs[i..]`. */
  function CellsOf(data: seq<HeatCell>, cs: seq<string>, ys: seq<string>, i: nat): (r: seq<HeatCell>)
    requires i <= |cs|
    ensures |r| <= (|cs| - i) * |ys|
    decreases |cs| - i
  {
    if i == |cs| then []
    else
      var r := CellsFrom(data, cs[i], ys, 0) + CellsOf(data, cs, ys, i + 1);
      assert (|cs| - i) * |ys| == |ys| + (|cs| - (i + 1)) * |ys|;
      r
  }

  /** Every cell of `r` has a country from `cs[i..]` and a year from `ys`, and
      is the first data row for its pair. */
  predicate ChartCells(data: seq<HeatCell>, cs: seq<string>, ys: seq<string>, i: nat, r: seq<HeatCell>)
  {
    forall k :: 0 <= k < |r| ==>
      i <= IndexIn(cs, r[k].country) < |cs| && IndexIn(ys, r[k].year) < |ys| &&
      FirstPair(data, r[k].country, r[k].year) == Some(r[k])
  }

  lemma {:induction false} CellsOfShape(data: seq<HeatCell>, cs: seq<string>, ys: seq<string>, i: nat)
    requires i <= |cs| && Distinct(cs) && Distinct(ys)
    ensures ChartCells(data, cs, ys, i, CellsOf(data, cs, ys, i))
    decreases |cs| - i
  {
    if i < |cs| {
      CellsFromShape(data, cs[i], ys, 0);
      CellsOfShape(data, cs, ys, i + 1);
      IndexInDistinct(cs, i);
      var head := CellsFrom(data, cs[i], ys, 0);
      var rest := CellsOf(data, cs, ys, i + 1);
      var r := head + rest;
      forall k | 0 <= k < |r|
        ensures i <= IndexIn(cs, r[k].country) < |cs| && IndexIn(ys, r[k].year) < |ys| &&
                FirstPair(data, r[k].country, r[k].year) == Some(r[k])
      {
        if k < |head| {
          assert r[k] == head[k];
          assert r[k].country == cs[i];
          assert IndexIn(cs, r[k].country) == i;
          assert IndexIn(ys, r[k].year) < |ys|;
        } else {
          assert r[k] == rest[k - |head|];
        }
      }
    }
  }

  /** The cells of `r` are ordered by country in list order, then by year. */
  predicate CountryMajor(cs: seq<string>, ys: seq<string>, r: seq<HeatCell>)
  {
    forall k1, k2 :: 0 <= k1 < k2 < |r| ==>
      IndexIn(cs, r[k1].country) < IndexIn(cs, r[k2].country) ||
      (r[k1].country == r[k2].country && IndexIn(ys, r[k1].year) < IndexIn(ys, r[k2].year))
  }

  /** One country's cells in year order, followed by cells of countries
      later in the list in country-major order, are in country-major order. */
  lemma CountryMajorAppend(cs: seq<string>, ys: seq<string>, c: string, head: seq<HeatCell>, rest: seq<HeatCell>)
    requires YearOrdered(ys, head) && CountryMajor(cs, ys, rest)
    requires forall k :: 0 <= k < |head| ==> head[k].country == c
    requires forall k :: 0 <= k < |rest| ==> IndexIn(cs, c) < IndexIn(cs, rest[k].country)
    ensures CountryMajor(cs, ys, head + rest)
  {
    var r := head + rest;
    forall k1, k2 | 0 <= k1 < k2 < |r|
      ensures IndexIn(cs, r[k1].country) < IndexIn(cs, r[k2].country) ||
              (r[k1].country == r[k2].country && IndexIn(ys, r[k1].year) < IndexIn(ys, r[k2].year))
    {
      if k2 < |head| {
        assert r[k1] == head[k1] && r[k2] == head[k2];
      } else if k1 < |head| {
        assert r[k1] == head[k1] && r[k2] == rest[k2 - |head|];
      } else {
        assert r[k1] == rest[k1 - |head|] && r[k2] == rest[k2 - |head|];
      }
    }
  }

  lemma {:induction false} CellsOfOrder(data: seq<HeatCell>, cs: seq<string>, ys: seq<string>, i: nat)
    requires i <= |cs| && Distinct(cs) && Distinct(ys)
    ensures CountryMajor(cs, ys, CellsOf(data, cs, ys, i))
    decreases |cs| - i
  {
    if i < |cs| {
      CellsFromShape(data, cs[i], ys, 0);
      CellsFromOrder(data, cs[i], ys, 0);
      CellsOfShape(data, cs, ys, i + 1);
      CellsOfOrder(data, cs, ys, i + 1);
      IndexInDistinct(cs, i);
      CountryMajorAppend(cs, ys, cs[i], CellsFrom(data, cs[i], ys, 0), CellsOf(data, cs, ys, i + 1));
    }
  }

  /** A pair of a country from `cs[i..]` and a year from `ys` has a cell in `r`
      exactly when some data row has it. */
  predicate PairsCovered(data: seq<HeatCell>, cs: seq<string>, ys: seq<string>, i: nat, r: seq<HeatCell>)
  {
    forall a, m :: i <= a < |cs| && 0 <= m < |ys| ==> PairCovered(data, cs[a], ys[m], r)
  }

  /** The pair `(c, y)` has a cell in `r` exactly when some data row has it. */
  predicate PairCovered(data: seq<HeatCell>, c: string, y: string, r: seq<HeatCell>)
  {
    (exists k :: 0 <= k < |r| && IsPair(r[k], c, y)) <==> exists d :: d in data && IsPair(d, c, y)
  }

  /** A cell for the pair `(cs[a], ys[m])` exists once some data row has it. */
  lemma {:induction false} CellsOfHas(data: seq<HeatCell>, cs: seq<string>, ys: seq<string>, i: nat, a: nat, m: nat, d: HeatCell)
    requires i <= a < |cs| && m < |ys| && Distinct(ys) && d in data && IsPair(d, cs[a], ys[m])
    ensures exists k :: 0 <= k < |CellsOf(data, cs, ys, i)| && IsPair(CellsOf(data, cs, ys, i)[k], cs[a], ys[m])
    decreases a - i
  {
    var head := CellsFrom(data, cs[i], ys, 0);
    var r := CellsOf(data, cs, ys, i);
    assert r == head + CellsOf(data, cs, ys, i + 1);
    if a == i {
      CellsFromHas(data, cs[i], ys, 0, m, d);
      CellsFromShape(data, cs[i], ys, 0);
      var k :| 0 <= k < |head| && head[k].year == ys[m];
      assert r[k] == head[k];
    } else {
      CellsOfHas(data, cs, ys, i + 1, a, m, d);
      var rest := CellsOf(data, cs, ys, i + 1);
      var k :| 0 <= k < |rest| && IsPair(rest[k], cs[a], ys[m]);
      assert r[|head| + k] == rest[k];
    }
  }

  lemma CellsOfCover(data: seq<HeatCell>, cs: seq<string>, ys: seq<string>, i: nat)
    requires i <= |cs| && Distinct(cs) && Distinct(ys)
    ensures PairsCovered(data, cs, ys, i, CellsOf(data, cs, ys, i))
  {
    forall a, m | i <= a < |cs| && 0 <= m < |ys|
      ensures PairCovered(data, cs[a], ys[m], CellsOf(data, cs, ys, i))
    {
      CellsOfPair(data, cs, ys, i, a, m);
    }
  }

  /** One listed pair has a cell exactly when some data row has it. */
  lemma CellsOfPair(data: seq<HeatCell>, cs: seq<string>, ys: seq<string>, i: nat, a: nat, m: nat)
    requires i <= a < |cs| && m < |ys| && Distinct(cs) && Distinct(ys)
    ensures PairCovered(data, cs[a], ys[m], CellsOf(data, cs, ys, i))
  {
    var r := CellsOf(data, cs, ys, i);
    if exists k :: 0 <= k < |r| && IsPair(r[k], cs[a], ys[m]) {
      var k :| 0 <= k < |r| && IsPair(r[k], cs[a], ys[m]);
      CellsOfShape(data, cs, ys, i);
      assert FirstPair(data, r[k].country, r[k].year) == Some(r[k]);
    }
    if exists d :: d in data && IsPair(d, cs[a], ys[m]) {
      var d :| d in data && IsPair(d, cs[a], ys[m]);
      CellsOfHas(data, cs, ys, i, a, m, d);
    }
  }

  predicate InHeatmap(d: HeatCell)
  {
    d.country in Countries && d.year in HeatmapYears
  }

  /** The rows the heatmap's row function keeps, in file order. */
  function ParsedRows(rows: seq<Row>, rd: Reader): (parsed: seq<HeatCell>)
    ensures forall d :: d in parsed <==> exists j :: 0 <= j < |rows| && ParseHeatRow(rows[j], rd) == Some(d)
  {
    MapSomes(rows, r => ParseHeatRow(r, rd))
  }

  /** Restricting the rows to the charted countries and years leaves the first
      row of a charted pair unchanged. */
  lemma FirstPairFiltered(parsed: seq<HeatCell>, c: string, y: string)
    requires c in Countries && y in HeatmapYears
    ensures FirstPair(Filter(parsed, InHeatmap), c, y) == FirstPair(parsed, c, y)
  {
    FindFilter(parsed, InHeatmap, d => IsPair(d, c, y));
  }

  lemma ChartListsDistinct()
    ensures Distinct(Countries) && Distinct(HeatmapYears)
  {
  }

  /** The heatmap cells: for each country in list order, the first parsed row of
      each charted year that has one. */
  function Heatmap(rows: seq<Row>, rd: Reader): (r: seq<HeatCell>)
    ensures |r| <= |Countries| * |HeatmapYears|
  {
    CellsOf(Filter(ParsedRows(rows, rd), InHeatmap), Countries, HeatmapYears, 0)
  }

  /** The cells come country-major in list order, then by year. */
  lemma HeatmapOrder(rows: seq<Row>, rd: Reader)
    ensures CountryMajor(Countries, HeatmapYears, Heatmap(rows, rd))
  {
    ChartListsDistinct();
    CellsOfOrder(Filter(ParsedRows(rows, rd), InHeatmap), Countries, HeatmapYears, 0);
  }

  /** No two cells share a country and a year. */
  lemma HeatmapUnique(rows: seq<Row>, rd: Reader)
    ensures var r := Heatmap(rows, rd);
      forall k1, k2 :: 0 <= k1 < k2 < |r| ==> (r[k1].country, r[k1].year) != (r[k2].country, r[k2].year)
  {
    HeatmapOrder(rows, rd);
    CountryMajorUnique(Countries, HeatmapYears, Heatmap(rows, rd));
  }

  /** Country-major order leaves no (country, year) pair twice. */
  lemma CountryMajorUnique(cs: seq<string>, ys: seq<string>, r: seq<HeatCell>)
    requires CountryMajor(cs, ys, r)
    ensures forall k1, k2 :: 0 <= k1 < k2 < |r| ==> (r[k1].country, r[k1].year) != (r[k2].country, r[k2].year)
  {
    forall k1, k2 | 0 <= k1 < k2 < |r|
      ensures (r[k1].country, r[k1].year) != (r[k2].country, r[k2].year)
    {
      assert IndexIn(cs, r[k1].country) < IndexIn(cs, r[k2].country) ||
        (r[k1].country == r[k2].country && IndexIn(ys, r[k1].year) < IndexIn(ys, r[k2].year));
    }
  }

  /** Each cell is a charted pair, and the first parsed row for that pair. */
  lemma HeatmapFirst(rows: seq<Row>, rd: Reader)
    ensures forall k :: 0 <= k < |Heatmap(rows, rd)| ==>
      InHeatmap(Heatmap(rows, rd)[k]) &&
      FirstPair(ParsedRows(rows, rd), Heatmap(rows, rd)[k].country, Heatmap(rows, rd)[k].year) == Some(Heatmap(rows, rd)[k])
  {
    var parsed := ParsedRows(rows, rd);
    var data := Filter(parsed, InHeatmap);
    var r := Heatmap(rows, rd);
    ChartListsDistinct();
    CellsOfShape(data, Countries, HeatmapYears, 0);
    forall k | 0 <= k < |r|
      ensures InHeatmap(r[k]) && FirstPair(parsed, r[k].country, r[k].year) == Some(r[k])
    {
      assert FirstPair(data, r[k].country, r[k].year) == Some(r[k]);
      assert InHeatmap(r[k]);
      FirstPairFiltered(parsed, r[k].country, r[k].year);
    }
  }

  /** Coverage survives dropping rows outside the listed countries and years. */
  lemma CoveredFiltered(parsed: seq<HeatCell>, p: HeatCell -> bool, cs: seq<string>, ys: seq<string>, r: seq<HeatCell>)
    requires forall d :: d in parsed && d.country in cs && d.year in ys ==> p(d)
    requires PairsCovered(Filter(parsed, p), cs, ys, 0, r)
    ensures PairsCovered(parsed, cs, ys, 0, r)
  {
    var data := Filter(parsed, p);
    forall a, m | 0 <= a < |cs| && 0 <= m < |ys|
      ensures (exists d :: d in data && IsPair(d, cs[a], ys[m])) <==> exists d :: d in parsed && IsPair(d, cs[a], ys[m])
    {
      if exists d :: d in parsed && IsPair(d, cs[a], ys[m]) {
        var d :| d in parsed && IsPair(d, cs[a], ys[m]);
        assert d in data;
      }
    }
  }

  /** A charted pair has a cell exactly when some parsed row has that pair. */
  lemma HeatmapCover(rows: seq<Row>, rd: Reader)
    ensures PairsCovered(ParsedRows(rows, rd), Countries, HeatmapYears, 0, Heatmap(rows, rd))
  {
    var parsed := ParsedRows(rows, rd);
    ChartListsDistinct();
    CellsOfCover(Filter(parsed, InHeatmap), Countries, HeatmapYears, 0);
    CoveredFiltered(parsed, InHeatmap, Countries, HeatmapYears, Heatmap(rows, rd));
  }

  // ----- Stacked means per country and source -----

  predicate InStacked(r: Row)
  {
    FieldIn(r, "Year", RecentYears) && FieldIn(r, "Entity", Countries)
  }

  predicate IsEntity(r: Row, c: string)
  {
    Field(r, "Entity") == Some(c)
  }

  function RowsOf(rows: seq<Row>, c: string): seq<Row>
  {
    Filter(rows, r => IsEntity(r, c))
  }

  /** `{ sum, count }` for one country and column. */
  datatype Acc = Acc(sum: real, count: nat)

  /** What the accumulation holds for country `c` and column `col` after `rows`:
      the sum and the number of that country's cells that read as a number. */
  function AccOf(rows: seq<Row>, c: string, col: string, rd: Reader): Acc
  {
    var xs := ColumnValues(RowsOf(rows, c), col, rd);
    Acc(SumBy(xs, OrZero), FiniteCount(xs))
  }

  /** `sum += v; count += 1` when `+d[col]` is a number. */
  function Bump(a: Acc, v: Num): Acc
  {
    if v.IsFinite() then Acc(a.sum + v.r, a.count + 1) else a
  }

  lemma AccOfStep(rows: seq<Row>, i: nat, c: string, col: string, rd: Reader)
    requires i < |rows|
    ensures AccOf(rows[..i + 1], c, col, rd) ==
      if IsEntity(rows[i], c) then Bump(AccOf(rows[..i], c, col, rd), PlusCell(rd, Field(rows[i], col)))
      else AccOf(rows[..i], c, col, rd)
  {
    var s := rows[..i + 1];
    assert s[..|s| - 1] == rows[..i];
    var before := RowsOf(rows[..i], c);
    if IsEntity(rows[i], c) {
      var after := before + [rows[i]];
      assert RowsOf(s, c) == after;
      var xs := ColumnValues(after, col, rd);
      assert xs[..|xs| - 1] == ColumnValues(before, col, rd);
    }
  }

  /** `agg` has an entry for exactly the countries of the rows before `n`. */
  ghost predicate AggKeys(agg: map<string, map<string, Acc>>, filtered: seq<Row>, n: nat)
    requires n <= |filtered|
  {
    forall c :: c in agg <==> exists j :: 0 <= j < n && IsEntity(filtered[j], c)
  }

  /** `agg[c][col]` holds, for every country seen and every column, the sum and
      count of that country's numeric cells among the rows before `n`. */
  predicate AggValues(agg: map<string, map<string, Acc>>, filtered: seq<Row>, n: nat, cols: seq<string>, rd: Reader)
    requires n <= |filtered|
  {
    forall c, col :: c in agg && col in cols ==> col in agg[c] && agg[c][col] == AccOf(filtered[..n], c, col, rd)
  }

  lemma AccOfFirst(rows: seq<Row>, c: string, col: string, rd: Reader)
    requires forall j :: 0 <= j < |rows| ==> !IsEntity(rows[j], c)
    ensures AccOf(rows, c, col, rd) == Acc(0.0, 0)
  {
    FilterNone(rows, r => IsEntity(r, c));
  }

  /** `energyCols.forEach(col => agg[c][col] = { sum: 0, count: 0 })` */
  function ZeroAccs(cols: seq<string>): (m: map<string, Acc>)
    ensures forall col :: col in m <==> col in cols
    ensures forall col :: col in cols ==> m[col] == Acc(0.0, 0)
  {
    map col | col in cols :: Acc(0.0, 0)
  }

  /** The inner forEach over the columns: each numeric cell of `d` is added to
      its column's sum and count. */
  function AddCells(row: map<string, Acc>, d: Row, cols: seq<string>, rd: Reader): (m: map<string, Acc>)
    requires forall col :: col in cols ==> col in row
    ensures forall col :: col in m <==> col in cols
    ensures forall col :: col in cols ==> m[col] == Bump(row[col], PlusCell(rd, Field(d, col)))
  {
    map col | col in cols :: Bump(row[col], PlusCell(rd, Field(d, col)))
  }

  /** `agg[c][col]` before a row of country `c` is added: zero for a new country. */
  function StartAcc(agg: map<string, map<string, Acc>>, c: string, col: string): Acc
  {
    if c in agg && col in agg[c] then agg[c][col] else Acc(0.0, 0)
  }

  /** The update `agg` receives for row `i`: the row's country gains an entry
      (all zero when new) with each numeric cell added. */
  predicate AggUpdate(agg: map<string, map<string, Acc>>, agg': map<string, map<string, Acc>>,
                      d: Row, c: string, cols: seq<string>, rd: Reader)
  {
    agg'.Keys == agg.Keys + {c} && (forall c' :: c' in agg && c' != c ==> agg'[c'] == agg[c']) &&
    forall col :: col in cols ==>
      (col in agg'[c] &&
       agg'[c][col] == Bump(StartAcc(agg, c, col), PlusCell(rd, Field(d, col))))
  }

  lemma AggStepKeys(agg: map<string, map<string, Acc>>, agg': map<string, map<string, Acc>>,
                    filtered: seq<Row>, i: nat, c: string)
    requires i < |filtered| && IsEntity(filtered[i], c)
    requires AggKeys(agg, filtered, i) && agg'.Keys == agg.Keys + {c}
    ensures AggKeys(agg', filtered, i + 1)
  {
    forall c' ensures c' in agg' <==> exists j :: 0 <= j < i + 1 && IsEntity(filtered[j], c') {
      if exists j :: 0 <= j < i + 1 && IsEntity(filtered[j], c') {
        var j :| 0 <= j < i + 1 && IsEntity(filtered[j], c');
        if j < i {
          assert c' in agg;
        }
      }
    }
  }

  lemma AggStepValue(agg: map<string, map<string, Acc>>, agg': map<string, map<string, Acc>>,
                     filtered: seq<Row>, i: nat, c: string, cols: seq<string>, rd: Reader, c': string, col: string)
    requires i < |filtered| && IsEntity(filtered[i], c)
    requires AggKeys(agg, filtered, i) && AggValues(agg, filtered, i, cols, rd)
    requires AggUpdate(agg, agg', filtered[i], c, cols, rd)
    requires c' in agg' && col in cols
    ensures col in agg'[c'] && agg'[c'][col] == AccOf(filtered[..i + 1], c', col, rd)
  {
    AccOfStep(filtered, i, c', col, rd);
    if c' != c {
      assert c' in agg;
      assert !IsEntity(filtered[i], c');
    } else if c in agg {
      assert agg[c][col] == AccOf(filtered[..i], c, col, rd);
    } else {
      AccOfFirst(filtered[..i], c, col, rd);
    }
  }

  /** One row of the forEach keeps `agg` describing the rows seen so far
      (`n` is the count of rows seen, `i + 1`). */
  lemma AggStep(agg: map<string, map<string, Acc>>, agg': map<string, map<string, Acc>>,
                filtered: seq<Row>, i: nat, n: nat, c: string, cols: seq<string>, rd: Reader)
    requires i < |filtered| && n == i + 1 && IsEntity(filtered[i], c)
    requires AggKeys(agg, filtered, i) && AggValues(agg, filtered, i, cols, rd)
    requires AggUpdate(agg, agg', filtered[i], c, cols, rd)
    ensures AggKeys(agg', filtered, n) && AggValues(agg', filtered, n, cols, rd)
  {
    AggStepKeys(agg, agg', filtered, i, c);
    forall c', col | c' in agg' && col in cols
      ensures col in agg'[c'] && agg'[c'][col] == AccOf(filtered[..i + 1], c', col, rd)
    {
      AggStepValue(agg, agg', filtered, i, c, cols, rd, c', col);
    }
  }

  /** `agg` once every filtered row is in: an entry for exactly the countries
      seen, holding for every column the sum and count of that country's
      numeric cells. */
  ghost predicate AggSummary(agg: map<string, map<string, Acc>>, filtered: seq<Row>, cols: seq<string>, rd: Reader)
  {
    (forall c :: c in agg <==> exists i :: 0 <= i < |filtered| && IsEntity(filtered[i], c)) &&
    forall c, col :: c in agg && col in cols ==> col in agg[c] && agg[c][col] == AccOf(filtered, c, col, rd)
  }

  /** `if (!agg[c]) { ... }`: afterwards `agg[c]` holds, for every column, what
      the country had so far, and no other entry changed. */
  lemma AggInit(before: map<string, map<string, Acc>>, mid: map<string, map<string, Acc>>,
                filtered: seq<Row>, i: nat, c: string, cols: seq<string>, rd: Reader)
    requires i <= |filtered| && AggValues(before, filtered, i, cols, rd)
    requires mid == if c in before then before else before[c := ZeroAccs(cols)]
    ensures mid.Keys == before.Keys + {c} && forall c' :: c' in before && c' != c ==> mid[c'] == before[c']
    ensures forall col :: col in cols ==> col in mid[c] && mid[c][col] == StartAcc(before, c, col)
  {
  }

  /** Adding the row's cells to `agg[c]` is the update `AggUpdate` describes. */
  lemma AggAddCells(before: map<string, map<string, Acc>>, mid: map<string, map<string, Acc>>,
                    agg': map<string, map<string, Acc>>, d: Row, c: string, cols: seq<string>, rd: Reader)
    requires mid.Keys == before.Keys + {c} && forall c' :: c' in before && c' != c ==> mid[c'] == before[c']
    requires forall col :: col in cols ==> col in mid[c] && mid[c][col] == StartAcc(before, c, col)
    requires agg' == mid[c := AddCells(mid[c], d, cols, rd)]
    ensures AggUpdate(before, agg', d, c, cols, rd)
  {
  }

  /** The forEach over the filtered rows that fills `agg`: after it, `agg` has
      an entry for exactly the countries seen, holding for every column the
      sum and count of that country's numeric cells. */
  method Accumulate(filtered: seq<Row>, cols: seq<string>, rd: Reader) returns (agg: map<string, map<string, Acc>>)
    requires forall i :: 0 <= i < |filtered| ==> "Entity" in filtered[i]
    ensures AggSummary(agg, filtered, cols, rd)
  {
    agg := map[];
    var i := 0;
    while i < |filtered|
      invariant 0 <= i <= |filtered|
      invariant AggKeys(agg, filtered, i) && AggValues(agg, filtered, i, cols, rd)
    {
      var d := filtered[i];
      var c := d["Entity"];
      ghost var before, seen := agg, i;
      if c !in agg {
        agg := agg[c := ZeroAccs(cols)];
      }
      AggInit(before, agg, filtered, i, c, cols, rd);
      var row := agg[c];
      ghost var mid := agg;
      agg := agg[c := AddCells(row, d, cols, rd)];
      AggAddCells(before, mid, agg, d, c, cols, rd);
      i := i + 1;
      AggStep(before, agg, filtered, seen, i, c, cols, rd);
    }
    assert filtered[..i] == filtered;
  }

  datatype StackedError =
    | NoRows            // `Object.keys(filtered[0])` on an empty selection
    | NoRowsFor(country: string)  // `agg[country][col]` for a country never seen

  /** The columns after the first three of the header, as `allCols.slice(3)`. */
  function StackedCols(header: seq<string>): seq<string>
  {
    if |header| <= 3 then [] else header[3..]
  }

  /** `item.count > 0 ? item.sum / item.count : 0` */
  function MeanOf(item: Acc): real
  {
    if item.count > 0 then item.sum / item.count as real else 0.0
  }

  /** The mean the accumulated sum and count give is `d3.mean` of the cells, with
      0 where none reads as a number. */
  lemma MeanOfAcc(rows: seq<Row>, c: string, col: string, rd: Reader)
    ensures MeanOf(AccOf(rows, c, col, rd)) == OrZero(Mean(ColumnValues(RowsOf(rows, c), col, rd)))
  {
    FiniteCountZero(ColumnValues(RowsOf(rows, c), col, rd));
  }

  /** One record of the stacked data: country `c` with the mean of each column
      over its rows, 0 where no cell reads as a number. */
  predicate MeansRecord(rec: (string, map<string, real>), filtered: seq<Row>, c: string, cols: seq<string>, rd: Reader)
  {
    rec.0 == c && rec.1.Keys == (set col | col in cols) &&
    forall col :: col in cols ==> rec.1[col] == OrZero(Mean(ColumnValues(RowsOf(filtered, c), col, rd)))
  }

  /** A country has an `agg` entry exactly when some filtered row is its. */
  lemma SeenIff(filtered: seq<Row>, agg: map<string, map<string, Acc>>, c: string)
    requires forall c :: c in agg <==> exists i :: 0 <= i < |filtered| && IsEntity(filtered[i], c)
    ensures c in agg <==> RowsOf(filtered, c) != []
  {
    if c in agg {
      var j :| 0 <= j < |filtered| && IsEntity(filtered[j], c);
      assert filtered[j] in RowsOf(filtered, c);
    }
    if RowsOf(filtered, c) != [] {
      var d := RowsOf(filtered, c)[0];
      assert d in filtered;
      var j :| 0 <= j < |filtered| && filtered[j] == d;
    }
  }

  /** What the `countries.map(...)` step yields for countries `cs`: either it
      fails at the first of them without a selected row, when there is a
      column to read, or it gives one `MeansRecord` per country, in order. */
  predicate MeansOutcome(r: Result<seq<(string, map<string, real>)>, StackedError>,
                         filtered: seq<Row>, cs: seq<string>, cols: seq<string>, rd: Reader)
  {
    match r
    case Err(e) =>
      e.NoRowsFor? && cols != [] &&
      exists i :: 0 <= i < |cs| && e.country == cs[i] && RowsOf(filtered, cs[i]) == [] &&
        forall k :: 0 <= k < i ==> RowsOf(filtered, cs[k]) != []
    case Ok(v) =>
      |v| == |cs| &&
      (cols != [] ==> forall i :: 0 <= i < |cs| ==> RowsOf(filtered, cs[i]) != []) &&
      forall i :: 0 <= i < |cs| ==> MeansRecord(v[i], filtered, cs[i], cols, rd)
  }

  /** `{ country, [col]: mean, ... }` read off the accumulated sums (an entry
      `agg` lacks, which the caller never reads, counts as no value). */
  function MeansFromAgg(agg: map<string, map<string, Acc>>, country: string, cols: seq<string>): (string, map<string, real>)
  {
    (country, map col | col in cols ::
      MeanOf(if country in agg && col in agg[country] then agg[country][col] else Acc(0.0, 0)))
  }

  lemma MeansFromAggRecord(filtered: seq<Row>, agg: map<string, map<string, Acc>>, country: string, cols: seq<string>, rd: Reader)
    requires AggSummary(agg, filtered, cols, rd)
    requires country in agg || cols == []
    ensures MeansRecord(MeansFromAgg(agg, country, cols), filtered, country, cols, rd)
  {
    var rec := MeansFromAgg(agg, country, cols);
    assert rec.1.Keys == set col | col in cols;
    forall col | col in cols
      ensures rec.1[col] == OrZero(Mean(ColumnValues(RowsOf(filtered, country), col, rd)))
    {
      var acc := AccOf(filtered, country, col, rd);
      assert col in agg[country] && agg[country][col] == acc;
      assert rec.1[col] == MeanOf(acc);
      MeanOfAcc(filtered, country, col, rd);
    }
  }

  /** `data` holds the records of the first `|data|` countries of `cs`, each of
      which has a selected row when there is a column to read. */
  predicate RecordsSoFar(data: seq<(string, map<string, real>)>, filtered: seq<Row>, cs: seq<string>, cols: seq<string>, rd: Reader)
  {
    |data| <= |cs| &&
    (cols != [] ==> forall k :: 0 <= k < |data| ==> RowsOf(filtered, cs[k]) != []) &&
    forall k :: 0 <= k < |data| ==> MeansRecord(data[k], filtered, cs[k], cols, rd)
  }

  lemma RecordsSoFarSnoc(data: seq<(string, map<string, real>)>, rec: (string, map<string, real>),
                         filtered: seq<Row>, cs: seq<string>, cols: seq<string>, rd: Reader)
    requires RecordsSoFar(data, filtered, cs, cols, rd) && |data| < |cs|
    requires cols != [] ==> RowsOf(filtered, cs[|data|]) != []
    requires MeansRecord(rec, filtered, cs[|data|], cols, rd)
    ensures RecordsSoFar(data + [rec], filtered, cs, cols, rd)
  {
    var d := data + [rec];
    assert forall k :: 0 <= k < |data| ==> d[k] == data[k];
  }

  /** `countries.map(...)` over the accumulated sums: a record per country of
      `cs`, in order, failing at the first country without an `agg` entry
      when there is a column to read. */
  method CountryMeans(filtered: seq<Row>, agg: map<string, map<string, Acc>>, cs: seq<string>, cols: seq<string>, rd: Reader)
    returns (r: Result<seq<(string, map<string, real>)>, StackedError>)
    requires AggSummary(agg, filtered, cols, rd)
    ensures MeansOutcome(r, filtered, cs, cols, rd)
  {
    var data: seq<(string, map<string, real>)> := [];
    while |data| < |cs|
      invariant RecordsSoFar(data, filtered, cs, cols, rd)
      decreases |cs| - |data|
    {
      var country := cs[|data|];
      SeenIff(filtered, agg, country);
      if country !in agg && cols != [] {
        return Err(NoRowsFor(country));
      }
      MeansFromAggRecord(filtered, agg, country, cols, rd);
      RecordsSoFarSnoc(data, MeansFromAgg(agg, country, cols), filtered, cs, cols, rd);
      data := data + [MeansFromAgg(agg, country, cols)];
    }
    return Ok(data);
  }

  /** Each listed country's mean of every source column over its 2022-2024 rows,
      0 where no cell reads as a number. Throws when no row is selected, and at
      the first listed country without a selected row when there is a column. */
  method StackedMeans(header: seq<string>, rows: seq<Row>, rd: Reader)
    returns (r: Result<seq<(string, map<string, real>)>, StackedError>)
    ensures r == Err(NoRows) <==> forall i :: 0 <= i < |rows| ==> !InStacked(rows[i])
    ensures r != Err(NoRows) ==> MeansOutcome(r, Filter(rows, InStacked), Countries, StackedCols(header), rd)
  {
    var filtered := Filter(rows, InStacked);
    if filtered == [] {
      assert forall i :: 0 <= i < |rows| ==> !InStacked(rows[i]) by {
        forall i | 0 <= i < |rows| ensures !InStacked(rows[i]) { assert rows[i] in rows; }
      }
      return Err(NoRows);
    }
    assert filtered[0] in rows;
    var agg := Accumulate(filtered, StackedCols(header), rd);
    r := CountryMeans(filtered, agg, Countries, StackedCols(header), rd);
  }

  // ----- Stacked chart labels -----

  /** Where the text after the first `sep` of `s` starts. */
  function FromEnd(s: string, sep: string): (n: nat)
    requires Contains(s, sep)
    ensures OccursAt(s, sep, n - |sep|) && n <= |s|
  {
    IndexOf(s, sep).value + |sep|
  }

  /** `t` occurs in `s` at position `b`. */
  predicate SliceAt(s: string, t: string, b: int)
  {
    0 <= b && b + |t| <= |s| && s[b..b + |t|] == t
  }

  /** `s.split(sep)[1]`: the text after the first `sep`, up to the next one or
      the end. */
  function AfterFirst(s: string, sep: string): (r: string)
    requires sep != []
    requires Contains(s, sep)
    ensures SliceAt(s, r, FromEnd(s, sep))
    ensures FromEnd(s, sep) + |r| == |s| || OccursAt(s, sep, FromEnd(s, sep) + |r|)
    ensures forall k :: FromEnd(s, sep) <= k < FromEnd(s, sep) + |r| ==> !OccursAt(s, sep, k)
  {
    var i := FromEnd(s, sep);
    match IndexFrom(s, sep, i)
    case None => s[i..]
    case Some(j) => s[i..j]
  }

  /** `name.charAt(0).toUpperCase() + name.slice(1)` */
  function Capitalize(s: string): (r: string)
    ensures |r| == |s| && (s != [] ==> r[0] == UpperChar(s[0]) && r[1..] == s[1..])
  {
    if s == [] then [] else [UpperChar(s[0])] + s[1..]
  }

  /** No character of `s` is "(". */
  predicate NoParen(s: string)
  {
    forall k :: 0 <= k < |s| ==> s[k] != '('
  }

  lemma NoParenContains(s: string)
    ensures NoParen(s) <==> !Contains(s, "(")
  {
    forall k | 0 <= k < |s| ensures OccursAt(s, "(", k) <==> s[k] == '(' {
      assert s[k..k + 1] == [s[k]];
    }
    assert forall k :: OccursAt(s, "(", k) ==> 0 <= k < |s|;
  }

  /** Capitalising neither brings in a "(" nor a trailing blank. */
  lemma CapitalizeKeeps(s: string)
    requires !Contains(s, "(") && (s != [] ==> !IsSpace(s[0]) && !IsSpace(s[|s| - 1]))
    ensures !Contains(Capitalize(s), "(")
    ensures s != [] ==> !IsSpace(Capitalize(s)[|s| - 1])
  {
    var r := Capitalize(s);
    NoParenContains(s);
    NoParenContains(r);
    forall k | 0 <= k < |r| ensures r[k] != '(' {
      if k > 0 {
        assert r[k] == r[1..][k - 1] == s[k];
      }
    }
    if s != [] && |s| > 1 {
      assert r[|s| - 1] == r[1..][|s| - 2] == s[1..][|s| - 2];
    }
  }

  predicate IsOtherRenewables(colname: string)
  {
    var lower := ToLower(colname);
    Contains(lower, "other") && Contains(lower, "renew")
  }

  /** The legend name of a stacked-chart column: "Other renewables" for the
      other-renewables column; otherwise, for a name with "from", the text after
      it up to the first "(", trimmed, with a capital initial; otherwise the name. */
  function ExtractLabel(colname: string): (r: string)
    ensures IsOtherRenewables(colname) ==> r == "Other renewables"
    ensures !IsOtherRenewables(colname) && !Contains(colname, "from") ==> r == colname
    ensures !IsOtherRenewables(colname) && Contains(colname, "from") ==>
      !Contains(r, "(") && |r| <= |colname| && (r != [] ==> !IsSpace(r[|r| - 1]))
    ensures !IsOtherRenewables(colname) && Contains(colname, "from") ==> LabelFrom(colname, r)
  {
    if IsOtherRenewables(colname) then "Other renewables"
    else if !Contains(colname, "from") then colname
    else
      var part := AfterFirst(colname, "from");
      FromLabel(colname, part, FromEnd(colname, "from"));
      Capitalize(Trim(SplitFirst(Trim(part), "(")))
  }

  /** `r` is the label of a column name with "from", in positions of the name:
      `b` is just after the first "from" and `e` ends the text up to the next
      "from" (or the end of the name). */
  ghost predicate LabelFrom(colname: string, r: string)
    requires Contains(colname, "from")
  {
    var b := FromEnd(colname, "from");
    LabelIn(colname, b, b + |AfterFirst(colname, "from")|, r)
  }

  /** `r` is the label cut from `s[b..e]`: `p` is the first "(" there (or `e`),
      and `r` is the non-blank span of `s[b..p]`, capitalised; `r` is empty
      exactly when `s[b..p]` is all blank. */
  ghost predicate LabelIn(s: string, b: int, e: int, r: string)
  {
    exists p, i, j :: LabelEnd(s, b, e, p) && TrimmedSpan(s, b, p, i, j) &&
      r == Capitalize(s[i..j]) && (r == [] <==> BlankBetween(s, b, p))
  }

  /** The label of the slice `part` of `s` at `b` is `LabelIn` it, keeps out
      "(" and ends in no blank. */
  lemma FromLabel(s: string, part: string, b: int)
    requires SliceAt(s, part, b)
    ensures var r := Capitalize(Trim(SplitFirst(Trim(part), "(")));
      !Contains(r, "(") && |r| <= |s| && (r != [] ==> !IsSpace(r[|r| - 1])) && LabelIn(s, b, b + |part|, r)
  {
    var name := Trim(SplitFirst(Trim(part), "("));
    var p, i, j := LabelAt(s, part, b);
    assert name == s[i..j];
    SpanClean(s, b, b + |part|, p, i, j);
    assert Capitalize(name) == [] <==> BlankBetween(s, b, p);
  }

  /** Every character of `s` from `lo` up to `hi` is white space. */
  predicate BlankBetween(s: string, lo: int, hi: int)
  {
    forall k :: lo <= k < hi && 0 <= k < |s| ==> IsSpace(s[k])
  }

  /** `p` ends the label's text between `b` and `e`: it is the first "(" there,
      or `e` when there is none. */
  predicate LabelEnd(s: string, b: int, e: int, p: int)
  {
    0 <= b <= p <= e <= |s| && (forall k :: b <= k < p ==> s[k] != '(') && (p < e ==> s[p] == '(')
  }

  /** `s[i..j]` is `s[b..p]` without the white space at either end. */
  predicate TrimmedSpan(s: string, b: int, p: int, i: int, j: int)
  {
    0 <= b <= i <= j <= p <= |s| && BlankBetween(s, b, i) && BlankBetween(s, j, p) &&
    (i < j ==> !IsSpace(s[i]) && !IsSpace(s[j - 1]))
  }

  /** `Trim` of a slice of `s`, as positions in `s`. */
  lemma TrimSpan(s: string, x: string, a: int) returns (i: int, j: int)
    requires SliceAt(s, x, a)
    ensures TrimmedSpan(s, a, a + |x|, i, j) && Trim(x) == s[i..j]
  {
    var i0, j0 := TrimAt(x);
    i, j := ShiftSpan(s, x, a, i0, j0);
  }

  /** Where `Trim(x)` sits in `x`. */
  lemma TrimAt(x: string) returns (i: int, j: int)
    ensures TrimmedSpan(x, 0, |x|, i, j) && Trim(x) == x[i..j]
  {
    i, j := SpacesAround(x);
    assert Trim(x) == x[i..j];
  }

  /** The leading and trailing white space of `x` that `trim()` drops. */
  lemma SpacesAround(x: string) returns (i: int, j: int)
    ensures i == LeadingSpaces(x) && j == |x| - TrailingSpaces(x[i..])
    ensures TrimmedSpan(x, 0, |x|, i, j)
  {
    i := LeadingSpaces(x);
    var t := x[i..];
    var n := TrailingSpaces(t);
    j := |x| - n;
    forall k | j <= k < |x| ensures IsSpace(x[k]) {
      assert t[k - i] == x[k];
    }
    if i < j {
      assert x[j - 1] == t[|t| - n - 1];
    }
  }

  /** A trimmed span of the slice `x` of `s` at `a`, as positions in `s`. */
  lemma ShiftSpan(s: string, x: string, a: int, i0: int, j0: int) returns (i: int, j: int)
    requires SliceAt(s, x, a) && TrimmedSpan(x, 0, |x|, i0, j0)
    ensures TrimmedSpan(s, a, a + |x|, i, j) && x[i0..j0] == s[i..j]
  {
    i, j := a + i0, a + j0;
    assert forall k :: a <= k < a + |x| ==> s[k] == x[k - a] by {
      forall k | a <= k < a + |x| ensures s[k] == x[k - a] {
        assert s[a..a + |x|][k - a] == s[k];
      }
    }
    assert s[i..j] == x[i0..j0];
  }

  /** `split("(")[0]` of a slice of `s`, as positions in `s`. */
  lemma SplitSpan(s: string, t: string, a: int) returns (p: int)
    requires SliceAt(s, t, a)
    ensures LabelEnd(s, a, a + |t|, p) && SplitFirst(t, "(") == s[a..p]
  {
    var m := SplitParen(t);
    p := a + m;
    assert forall k :: a <= k < a + |t| ==> s[k] == t[k - a] by {
      forall k | a <= k < a + |t| ensures s[k] == t[k - a] {
        assert s[a..a + |t|][k - a] == s[k];
      }
    }
    assert s[a..p] == t[..m];
  }

  /** `split("(")[0]` runs up to the first "(", or to the end. */
  lemma SplitParen(t: string) returns (m: int)
    ensures 0 <= m <= |t| && SplitFirst(t, "(") == t[..m]
    ensures (forall k :: 0 <= k < m ==> t[k] != '(') && (m < |t| ==> t[m] == '(')
  {
    match IndexOf(t, "(")
    case None =>
      m := |t|;
      NoParenContains(t);
    case Some(i) =>
      m := i;
      forall k | 0 <= k < m ensures t[k] != '(' {
        assert !OccursAt(t, "(", k);
        assert t[k..k + 1] == [t[k]];
      }
      assert t[m..m + 1] == "(";
  }

  /** The label cut out of the slice `part` of `s` at `b`, as positions in `s`. */
  lemma LabelAt(s: string, part: string, b: int) returns (p: int, i: int, j: int)
    requires SliceAt(s, part, b)
    ensures LabelEnd(s, b, b + |part|, p) && TrimmedSpan(s, b, p, i, j)
    ensures Trim(SplitFirst(Trim(part), "(")) == s[i..j] && (i == j <==> BlankBetween(s, b, p))
  {
    var i1, j1 := TrimSpan(s, part, b);
    assert j1 == i1 + |Trim(part)| && SliceAt(s, Trim(part), i1);
    p, i, j := CutAfterTrim(s, b, b + |part|, Trim(part), i1);
  }

  /** Cutting the trimmed slice `t` of `s[b..e]` at its first "(" and trimming
      again, as positions in `s`. */
  lemma CutAfterTrim(s: string, b: int, e: int, t: string, i1: int) returns (p: int, i: int, j: int)
    requires TrimmedSpan(s, b, e, i1, i1 + |t|) && SliceAt(s, t, i1)
    ensures LabelEnd(s, b, e, p) && TrimmedSpan(s, b, p, i, j)
    ensures Trim(SplitFirst(t, "(")) == s[i..j] && (i == j <==> BlankBetween(s, b, p))
  {
    var p1 := SplitSpan(s, t, i1);
    p := LabelStop(s, b, e, i1, i1 + |t|, p1);
    var u := SplitFirst(t, "(");
    assert |u| == p1 - i1 && SliceAt(s, u, i1);
    i, j := TrimSpan(s, u, i1);
    WidenSpan(s, b, i1, p1, p, i, j);
  }

  /** The label of `s[b..e]` ends where that of its trimmed part `s[i1..j1]`
      does, or at `e` when that part has no "(". */
  lemma LabelStop(s: string, b: int, e: int, i1: int, j1: int, p1: int) returns (p: int)
    requires 0 <= b <= i1 && j1 <= e <= |s| && BlankBetween(s, b, i1) && BlankBetween(s, j1, e) && LabelEnd(s, i1, j1, p1)
    ensures LabelEnd(s, b, e, p) && p1 <= p && BlankBetween(s, p1, p)
  {
    p := if p1 < j1 then p1 else e;
    if p1 >= j1 {
      assert p1 == j1;
    }
    assert !IsSpace('(');
    forall k | b <= k < p ensures s[k] != '(' {
      if k < i1 {
        assert IsSpace(s[k]);
      } else if p1 <= k {
        assert IsSpace(s[k]);
      }
    }
  }

  /** A trimmed span of `s[i1..p1]` with blank text on either side is a
      trimmed span of the wider `s[b..p]`, empty exactly when that is blank. */
  lemma WidenSpan(s: string, b: int, i1: int, p1: int, p: int, i: int, j: int)
    requires 0 <= b <= i1 && p1 <= p <= |s| && BlankBetween(s, b, i1) && BlankBetween(s, p1, p) && TrimmedSpan(s, i1, p1, i, j)
    ensures TrimmedSpan(s, b, p, i, j) && (i == j <==> BlankBetween(s, b, p))
  {
    forall k | b <= k < i && 0 <= k < |s| ensures IsSpace(s[k]) {
      if k < i1 {
        assert BlankBetween(s, b, i1);
      } else {
        assert BlankBetween(s, i1, i);
      }
    }
    forall k | j <= k < p && 0 <= k < |s| ensures IsSpace(s[k]) {
      if k < p1 {
        assert BlankBetween(s, j, p1);
      } else {
        assert BlankBetween(s, p1, p);
      }
    }
    BlankSpan(s, b, p, i, j);
  }

  /** A trimmed span is empty exactly when everything around it is blank. */
  lemma BlankSpan(s: string, b: int, p: int, i: int, j: int)
    requires TrimmedSpan(s, b, p, i, j)
    ensures i == j <==> BlankBetween(s, b, p)
  {
    if i == j {
      forall k | b <= k < p && 0 <= k < |s| ensures IsSpace(s[k]) {
        if k >= i {
          assert BlankBetween(s, j, p);
        }
      }
    }
  }

  /** The capitalised trimmed span before the label's end holds no "(",
      keeps the span's length and does not end in a blank. */
  lemma SpanClean(s: string, b: int, e: int, p: int, i: int, j: int)
    requires LabelEnd(s, b, e, p) && TrimmedSpan(s, b, p, i, j)
    ensures var r := Capitalize(s[i..j]);
      !Contains(r, "(") && |r| == j - i && (r != [] ==> !IsSpace(r[|r| - 1]))
  {
    var u := s[i..j];
    forall k | 0 <= k < |u| ensures u[k] != '(' {
      assert u[k] == s[i + k];
    }
    NoParenContains(u);
    CapitalizeKeeps(u);
  }

  // ----- Fossil-fuel waffles -----

  const CoalCol := "Electricity from coal - TWh (adapted for visualization of chart electricity-prod-source-stacked)"
  const OilCol := "Electricity from oil - TWh (adapted for visualization of chart electricity-prod-source-stacked)"
  const GasCol := "Electricity from gas - TWh (adapted for visualization of chart electricity-prod-source-stacked)"

  /** The nine columns whose numeric cells make up a row's total; coal, oil and
      gas are among them. */
  const WaffleCols: seq<string> := [
    "Other renewables excluding bioenergy - TWh (adapted for visualization of chart electricity-prod-source-stacked)",
    "Electricity from bioenergy - TWh (adapted for visualization of chart electricity-prod-source-stacked)",
    "Electricity from solar - TWh (adapted for visualization of chart electricity-prod-source-stacked)",
    "Electricity from wind - TWh (adapted for visualization of chart electricity-prod-source-stacked)",
    "Electricity from hydro - TWh (adapted for visualization of chart electricity-prod-source-stacked)",
    "Electricity from nuclear - TWh (adapted for visualization of chart electricity-prod-source-stacked)",
    OilCol,
    GasCol,
    CoalCol
  ]

  /** A cell's number when it reads as one, else 0: what the `!isNaN` guards add. */
  function Cell(rd: Reader, r: Row, col: string): real
  {
    OrZero(PlusCell(rd, Field(r, col)))
  }

  /** The cells of row `r`, as a function of the column. */
  function RowCells(rd: Reader, r: Row): string -> real
  {
    col => Cell(rd, r, col)
  }

  /** The numeric cells of one row over the nine columns, added up. */
  function RowTotal(rd: Reader, r: Row): real
  {
    SumBy(WaffleCols, RowCells(rd, r))
  }

  datatype Totals = Totals(coal: real, oil: real, gas: real, total: real)

  /** Column `col` of a row, as a function of the row. */
  function ColumnOf(rd: Reader, col: string): Row -> real
  {
    r => Cell(rd, r, col)
  }

  /** A row's total, as a function of the row. */
  function RowTotals(rd: Reader): Row -> real
  {
    r => RowTotal(rd, r)
  }

  /** The sums the waffle's `totals` accumulator reaches over `rowsC`. */
  function TotalsOf(rowsC: seq<Row>, rd: Reader): Totals
  {
    Totals(SumBy(rowsC, ColumnOf(rd, CoalCol)), SumBy(rowsC, ColumnOf(rd, OilCol)),
           SumBy(rowsC, ColumnOf(rd, GasCol)), SumBy(rowsC, RowTotals(rd)))
  }

  /** One more row adds its coal, oil and gas cells and its total. */
  lemma TotalsOfLast(rowsC: seq<Row>, rd: Reader)
    requires rowsC != []
    ensures var t, r := TotalsOf(rowsC[..|rowsC| - 1], rd), rowsC[|rowsC| - 1];
      TotalsOf(rowsC, rd) ==
        Totals(t.coal + Cell(rd, r, CoalCol), t.oil + Cell(rd, r, OilCol), t.gas + Cell(rd, r, GasCol), t.total + RowTotal(rd, r))
  {
  }

  /** The forEach over one country's rows. */
  method CountryTotals(rowsC: seq<Row>, rd: Reader) returns (t: Totals)
    ensures t == TotalsOf(rowsC, rd)
  {
    t := Totals(0.0, 0.0, 0.0, 0.0);
    for i := 0 to |rowsC|
      invariant t == TotalsOf(rowsC[..i], rd)
    {
      assert rowsC[..i + 1][..i] == rowsC[..i];
      TotalsOfLast(rowsC[..i + 1], rd);
      t := AddRow(t, rd, rowsC[i]);
    }
    assert rowsC[..|rowsC|] == rowsC;
  }

  /** The body of that forEach: the `!isNaN` guarded additions of the coal,
      oil and gas cells, and the inner forEach over the nine columns. */
  method AddRow(t: Totals, rd: Reader, r: Row) returns (t': Totals)
    ensures t' == Totals(t.coal + Cell(rd, r, CoalCol), t.oil + Cell(rd, r, OilCol),
                         t.gas + Cell(rd, r, GasCol), t.total + RowTotal(rd, r))
  {
    var c := PlusCell(rd, Field(r, CoalCol));
    var o := PlusCell(rd, Field(r, OilCol));
    var g := PlusCell(rd, Field(r, GasCol));
    var coal, oil, gas, total := t.coal, t.oil, t.gas, t.total;
    if c.IsFinite() { coal := coal + c.r; }
    if o.IsFinite() { oil := oil + o.r; }
    if g.IsFinite() { gas := gas + g.r; }
    var rowTotal := SumCells(rd, r, WaffleCols);
    total := total + rowTotal;
    t' := Totals(coal, oil, gas, total);
  }

  /** The inner forEach: the numeric cells of `r` over `cols`, added up. */
  method SumCells(rd: Reader, r: Row, cols: seq<string>) returns (rowTotal: real)
    ensures rowTotal == SumBy(cols, RowCells(rd, r))
  {
    rowTotal := 0.0;
    for j := 0 to |cols|
      invariant rowTotal == SumBy(cols[..j], RowCells(rd, r))
    {
      assert cols[..j + 1][..j] == cols[..j];
      var v := PlusCell(rd, Field(r, cols[j]));
      if v.IsFinite() { rowTotal := rowTotal + v.r; }
    }
    assert cols[..|cols|] == cols;
  }

  /** `total ? part / total * 100 : 0` */
  function Pct(part: real, total: real): real
  {
    if total != 0.0 then part / total * 100.0 else 0.0
  }

  datatype CountryStat = CountryStat(country: string, pctCoal: real, pctOil: real, pctGas: real, total: real)

  predicate InWaffle(r: Row)
  {
    FieldIn(r, "Year", RecentYears) && FieldIn(r, "Entity", Countries)
  }

  function StatOf(t: Totals, country: string): CountryStat
  {
    CountryStat(country, Pct(t.coal, t.total), Pct(t.oil, t.total), Pct(t.gas, t.total), t.total)
  }

  /** `countries.map(...)`: one statistic per country of `cs`, in order, from
      that country's rows. */
  method StatsFor(filtered: seq<Row>, cs: seq<string>, rd: Reader) returns (stats: seq<CountryStat>)
    ensures |stats| == |cs|
    ensures forall i :: 0 <= i < |cs| ==> stats[i] == StatOf(TotalsOf(RowsOf(filtered, cs[i]), rd), cs[i])
  {
    stats := [];
    for i := 0 to |cs|
      invariant |stats| == i
      invariant forall k :: 0 <= k < i ==> stats[k] == StatOf(TotalsOf(RowsOf(filtered, cs[k]), rd), cs[k])
    {
      var t := CountryTotals(RowsOf(filtered, cs[i]), rd);
      stats := stats + [StatOf(t, cs[i])];
    }
  }

  /** One statistic per listed country, in list order, from that country's
      2022-2024 rows. */
  method CountryStats(rows: seq<Row>, rd: Reader) returns (stats: seq<CountryStat>)
    ensures |stats| == |Countries|
    ensures forall i :: 0 <= i < |Countries| ==>
      stats[i] == StatOf(TotalsOf(RowsOf(Filter(rows, InWaffle), Countries[i]), rd), Countries[i])
  {
    stats := StatsFor(Filter(rows, InWaffle), Countries, rd);
  }

  /** No cell of the nine columns reads as a negative number. */
  predicate NonNegativeCells(rowsC: seq<Row>, rd: Reader)
  {
    forall i, col :: 0 <= i < |rowsC| && col in WaffleCols ==> Cell(rd, rowsC[i], col) >= 0.0
  }

  /** With non-negative terms, the last three terms of a sum are at most the sum. */
  lemma SumByLastThree<T>(w: seq<T>, f: T -> real)
    requires |w| >= 3 && forall i :: 0 <= i < |w| ==> f(w[i]) >= 0.0
    ensures f(w[|w| - 3]) + f(w[|w| - 2]) + f(w[|w| - 1]) <= SumBy(w, f)
  {
    var n := |w|;
    var w1 := w[..n - 1];
    var w2 := w1[..n - 2];
    var w3 := w2[..n - 3];
    assert SumBy(w, f) == SumBy(w1, f) + f(w[n - 1]);
    assert SumBy(w1, f) == SumBy(w2, f) + f(w[n - 2]);
    assert SumBy(w2, f) == SumBy(w3, f) + f(w[n - 3]);
    SumByNonNegative(w3, f);
  }

  /** A row's coal, oil and gas cells are part of its total. */
  lemma RowTotalCovers(rd: Reader, r: Row)
    requires forall col :: col in WaffleCols ==> Cell(rd, r, col) >= 0.0
    ensures Cell(rd, r, CoalCol) + Cell(rd, r, OilCol) + Cell(rd, r, GasCol) <= RowTotal(rd, r)
  {
    SumByLastThree(WaffleCols, RowCells(rd, r));
  }

  /** With no negative cells, the fossil sums are non-negative and together
      at most the total. */
  lemma TotalsCover(rowsC: seq<Row>, rd: Reader)
    requires NonNegativeCells(rowsC, rd)
    ensures var t := TotalsOf(rowsC, rd);
            0.0 <= t.coal && 0.0 <= t.oil && 0.0 <= t.gas && t.coal + t.oil + t.gas <= t.total
  {
    var coal, oil, gas := ColumnOf(rd, CoalCol), ColumnOf(rd, OilCol), ColumnOf(rd, GasCol);
    var co := r => Cell(rd, r, CoalCol) + Cell(rd, r, OilCol);
    var cog := r => Cell(rd, r, CoalCol) + Cell(rd, r, OilCol) + Cell(rd, r, GasCol);
    SumBySplit(rowsC, coal, oil, co);
    SumBySplit(rowsC, co, gas, cog);
    forall i | 0 <= i < |rowsC| ensures cog(rowsC[i]) <= RowTotal(rd, rowsC[i]) {
      RowTotalCovers(rd, rowsC[i]);
    }
    SumByMonotone(rowsC, cog, RowTotals(rd));
    assert CoalCol in WaffleCols && OilCol in WaffleCols && GasCol in WaffleCols by {
      assert WaffleCols[8] == CoalCol && WaffleCols[6] == OilCol && WaffleCols[7] == GasCol;
    }
    forall i | 0 <= i < |rowsC| ensures coal(rowsC[i]) >= 0.0 && oil(rowsC[i]) >= 0.0 && gas(rowsC[i]) >= 0.0 {
      assert Cell(rd, rowsC[i], CoalCol) >= 0.0 && Cell(rd, rowsC[i], OilCol) >= 0.0 && Cell(rd, rowsC[i], GasCol) >= 0.0;
    }
    SumByNonNegative(rowsC, coal);
    SumByNonNegative(rowsC, oil);
    SumByNonNegative(rowsC, gas);
  }

  /** Shares of non-negative parts of a total are percentages adding up to at most 100. */
  lemma PctShares(coal: real, oil: real, gas: real, total: real)
    requires 0.0 <= coal && 0.0 <= oil && 0.0 <= gas && coal + oil + gas <= total
    ensures 0.0 <= Pct(coal, total) && 0.0 <= Pct(oil, total) && 0.0 <= Pct(gas, total)
    ensures Pct(coal, total) + Pct(oil, total) + Pct(gas, total) <= 100.0
  {
    if total != 0.0 {
      var k := 100.0 / total;
      assert k > 0.0;
      assert Pct(coal, total) == coal * k && Pct(oil, total) == oil * k && Pct(gas, total) == gas * k;
      assert (coal + oil + gas) * k <= total * k;
      assert (coal + oil + gas) * k == coal * k + oil * k + gas * k;
      assert total * k == 100.0;
    }
  }

  /** With no negative cells, each fossil share is a percentage and the three
      add up to at most 100. */
  lemma WaffleShares(rowsC: seq<Row>, rd: Reader)
    requires NonNegativeCells(rowsC, rd)
    ensures var s := StatOf(TotalsOf(rowsC, rd), "");
            0.0 <= s.pctCoal && 0.0 <= s.pctOil && 0.0 <= s.pctGas &&
            s.pctCoal + s.pctOil + s.pctGas <= 100.0
  {
    TotalsCover(rowsC, rd);
    var t := TotalsOf(rowsC, rd);
    PctShares(t.coal, t.oil, t.gas, t.total);
  }

  /** `Math.round` */
  function Round(x: real): int
  {
    (x + 0.5).Floor
  }

  const CoalFill := "rgb(156, 117, 95)"
  const OilFill := "rgb(175, 122, 161)"
  const GasFill := "rgb(255, 157, 167)"
  const EmptyFill := "#eeeeee"

  datatype WaffleCell = WaffleCell(i: nat, row: nat, col: nat, fill: string)

  /** The fill of cell `i` given the rounded coal, oil and gas cell counts. */
  function FillOf(i: int, c: int, o: int, g: int): string
  {
    if i < c then CoalFill
    else if i < c + o then OilFill
    else if i < c + o + g then GasFill
    else EmptyFill
  }

  /** The hundred cells of one waffle: cell `i` in row `i / 10`, column `i % 10`,
      coloured by consecutive coal, oil and gas bands and empty after them. */
  function WaffleCells(c: int, o: int, g: int): (cells: seq<WaffleCell>)
    ensures |cells| == 100
    ensures forall i :: 0 <= i < 100 ==>
      cells[i].i == i && cells[i].row < 10 && cells[i].col < 10 && cells[i].row * 10 + cells[i].col == i
    ensures forall i :: 0 <= i < 100 ==>
      (cells[i].fill == CoalFill <==> i < c) &&
      (cells[i].fill == OilFill <==> c <= i < c + o) &&
      (cells[i].fill == GasFill <==> c <= i && c + o <= i < c + o + g) &&
      (cells[i].fill == EmptyFill <==> c <= i && c + o <= i && c + o + g <= i)
  {
    seq(100, i requires 0 <= i < 100 => WaffleCell(i, i / 10, i % 10, FillOf(i, c, o, g)))
  }

  function Clip(x: int, n: int): int
  {
    if x < 0 then 0 else if x > n then n else x
  }

  /** Counting the cells of `cells[..n]` whose fill marks the band `[lo, hi)`. */
  lemma {:induction false} BandCount(cells: seq<WaffleCell>, f: string, lo: int, hi: int, n: nat)
    requires n <= |cells| && lo <= hi
    requires forall i :: 0 <= i < |cells| ==> (cells[i].fill == f <==> lo <= i < hi)
    ensures CountIf(cells[..n], (x: WaffleCell) => x.fill == f) == Clip(hi, n) - Clip(lo, n)
    decreases n
  {
    if n > 0 {
      BandCount(cells, f, lo, hi, n - 1);
      assert cells[..n][..n - 1] == cells[..n - 1];
    }
  }

  /** With non-negative counts, the waffle shows `c` coal cells, then `o` oil and
      `g` gas cells, cut off at 100, and the rest empty. */
  lemma WaffleBands(c: int, o: int, g: int)
    requires c >= 0 && o >= 0 && g >= 0
    ensures var cells := WaffleCells(c, o, g);
            CountIf(cells, (x: WaffleCell) => x.fill == CoalFill) == Clip(c, 100) &&
            CountIf(cells, (x: WaffleCell) => x.fill == OilFill) == Clip(c + o, 100) - Clip(c, 100) &&
            CountIf(cells, (x: WaffleCell) => x.fill == GasFill) == Clip(c + o + g, 100) - Clip(c + o, 100) &&
            CountIf(cells, (x: WaffleCell) => x.fill == EmptyFill) == 100 - Clip(c + o + g, 100)
  {
    var cells := WaffleCells(c, o, g);
    assert cells[..100] == cells;
    BandCount(cells, CoalFill, 0, c, 100);
    BandCount(cells, OilFill, c, c + o, 100);
    BandCount(cells, GasFill, c + o, c + o + g, 100);
    BandCount(cells, EmptyFill, c + o + g, if c + o + g < 100 then 100 else c + o + g, 100);
  }

  /** Rounded shares of at most 100 give cell counts in [0, 100] whose sum is at
      most 101: the three roundings can overshoot by one cell, which the last
      band then loses. */
  lemma RoundedCounts(pc: real, po: real, pg: real)
    requires 0.0 <= pc && 0.0 <= po && 0.0 <= pg && pc + po + pg <= 100.0
    ensures 0 <= Round(pc) <= 100 && 0 <= Round(po) <= 100 && 0 <= Round(pg) <= 100
    ensures Round(pc) + Round(po) + Round(pg) <= 101
  {
    assert Round(pc) as real <= pc + 0.5 && Round(po) as real <= po + 0.5 && Round(pg) as real <= pg + 0.5;
    assert (Round(pc) + Round(po) + Round(pg)) as real <= 101.5;
  }

  /** Shares of 33.5, 33.5 and 33 percent round to 34, 34 and 33 cells: the gas
      band keeps only 32 of its 33 cells. */
  lemma RoundedOvershoot()
    ensures Round(33.5) + Round(33.5) + Round(33.0) == 101
    ensures CountIf(WaffleCells(34, 34, 33), (x: WaffleCell) => x.fill == GasFill) == 32
  {
    assert Round(33.5) == 34 && Round(33.0) == 33;
    WaffleBands(34, 34, 33);
  }
}
