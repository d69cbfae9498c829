/** The data behind the distribution charts: the renewable versus
    non-renewable pyramid per country and five-year bin, the per-capita
    ridgelines by decade, and the CO2 box plot per country. */
module Distributions {
  import opened Collections
  import opened Text
  import opened Js

  /** The ten countries of the pyramid and of the box plot, in drawing order. */
  const Countries: seq<string> := [
    "Italy", "France", "Germany", "Spain", "United Kingdom",
    "Sweden", "Norway", "Netherlands", "Greece", "Switzerland"
  ]

  // ----- Renewable vs non-renewable pyramid -----

  const Suffix := " - TWh (adapted for visualization of chart electricity-prod-source-stacked)"

  const Renew: seq<string> := [
    "Other renewables excluding bioenergy" + Suffix,
    "Electricity from bioenergy" + Suffix,
    "Electricity from solar" + Suffix,
    "Electricity from wind" + Suffix,
    "Electricity from hydro" + Suffix
  ]

  const NonRenew: seq<string> := [
    "Electricity from nuclear" + Suffix,
    "Electricity from gas" + Suffix,
    "Electricity from oil" + Suffix,
    "Electricity from coal" + Suffix
  ]

  /** `v(r, k)`: a missing row, a missing cell and an empty cell read as 0,
      any other cell as unary `+` reads it. */
  function V(r: Option<Row>, k: string, rd: Reader): (n: Num)
    ensures r.None? ==> n == Finite(0.0)
    ensures n.NaN? ==> r.Some? && k in r.value && !AllSpace(r.value[k])
  {
    if r.Some? && k in r.value && r.value[k] != "" then Plus(rd, r.value[k]) else Finite(0.0)
  }

  /** The empty-cell guard of `v` is redundant: on a present row it differs
      from plain `+r[k]` only on a missing cell, which is 0 instead of NaN. */
  lemma VIsPlus(r: Row, k: string, rd: Reader)
    ensures V(Some(r), k, rd) == if k in r then PlusCell(rd, Field(r, k)) else Finite(0.0)
  {
    if k in r && r[k] == "" {
      assert AllSpace(r[k]);
    }
  }

  /** The five inclusive year bins. */
  const Bins: seq<(int, int)> := [(2000, 2004), (2005, 2009), (2010, 2014), (2015, 2019), (2020, 2024)]

  /** `binLabel([a, b])` */
  function BinLabel(bin: (int, int)): string
  {
    IntToString(bin.0) + "-" + IntToString(bin.1)
  }

  /** Index of the bin holding `y`, if any. */
  predicate InBin(y: int, i: int)
    requires 0 <= i < |Bins|
  {
    Bins[i].0 <= y <= Bins[i].1
  }

  /** The bins are contiguous and disjoint, and together cover exactly the
      years 2000 to 2024: a year lies in some bin iff it is in that range,
      and then in exactly one. */
  lemma BinsPartition(y: int)
    ensures (exists i :: 0 <= i < |Bins| && InBin(y, i)) <==> 2000 <= y <= 2024
    ensures forall i, j :: 0 <= i < j < |Bins| && InBin(y, i) ==> !InBin(y, j)
  {
    if 2000 <= y <= 2024 {
      var i := (y - 2000) / 5;
      assert InBin(y, i);
    }
  }

  lemma FourDigits(n: int)
    requires 1000 <= n < 10000
    ensures IntToString(n) == [DigitChar(n / 1000), DigitChar(n / 100 % 10), DigitChar(n / 10 % 10), DigitChar(n % 10)]
  {
    assert NatToString(n / 1000) == [DigitChar(n / 1000)];
    assert NatToString(n / 100) == NatToString(n / 1000) + [DigitChar(n / 100 % 10)];
    assert NatToString(n / 10) == NatToString(n / 100) + [DigitChar(n / 10 % 10)];
  }

  lemma YearText(n: int, t: string)
    requires 2000 <= n <= 2024 && |t| == 4 && t[0] == '2' && t[1] == '0'
    requires t[2] == DigitChar(n / 10 % 10) && t[3] == DigitChar(n % 10)
    ensures IntToString(n) == t
  {
    FourDigits(n);
    assert DigitChar(2) == '2' && DigitChar(0) == '0';
  }

  /** The band labels, which are therefore pairwise distinct. */
  lemma BinLabels()
    ensures BinLabel(Bins[0]) == "2000-2004" && BinLabel(Bins[1]) == "2005-2009" &&
            BinLabel(Bins[2]) == "2010-2014" && BinLabel(Bins[3]) == "2015-2019" &&
            BinLabel(Bins[4]) == "2020-2024"
  {
    YearText(2000, "2000"); YearText(2004, "2004");
    YearText(2005, "2005"); YearText(2009, "2009");
    YearText(2010, "2010"); YearText(2014, "2014");
    YearText(2015, "2015"); YearText(2019, "2019");
    YearText(2020, "2020"); YearText(2024, "2024");
  }

  /** `rows.filter(...)`: a listed country and a year that reads as a number in 2000..2024. */
  predicate InPyramid(r: Row, rd: Reader)
  {
    FieldIn(r, "Entity", Countries) &&
    var y := PlusCell(rd, Field(r, "Year"));
    y.Finite? && 2000.0 <= y.r <= 2024.0
  }

  function Selected(rows: seq<Row>, rd: Reader): seq<Row>
  {
    Filter(rows, r => InPyramid(r, rd))
  }

  /** `${r.Entity}|${r.Year}` */
  function RowKey(r: Row): string
  {
    Str(Field(r, "Entity")) + "|" + Str(Field(r, "Year"))
  }

  /** `${country}|${y}` for a whole-number year. */
  function YearKey(country: string, y: int): string
  {
    country + "|" + IntToString(y)
  }

  /** The `(key, row)` pairs the `forEach` writes, in order. */
  function Keyed(sel: seq<Row>): (r: seq<(string, Row)>)
    ensures |r| == |sel|
    ensures forall i :: 0 <= i < |sel| ==> r[i] == (RowKey(sel[i]), sel[i])
  {
    seq(|sel|, i requires 0 <= i < |sel| => (RowKey(sel[i]), sel[i]))
  }

  /** `byCY`: the map the `forEach` leaves behind. */
  function ByCY(rows: seq<Row>, rd: Reader): map<string, Row>
  {
    LastWins(Keyed(Selected(rows, rd)))
  }

  /** Fills `byCY` from the selected rows; a later row of the same key
      replaces an earlier one. */
  method IndexRows(sel: seq<Row>) returns (byCY: map<string, Row>)
    ensures byCY == LastWins(Keyed(sel))
  {
    byCY := map[];
    for i := 0 to |sel|
      invariant byCY == LastWins(Keyed(sel[..i]))
    {
      var t := Keyed(sel[..i + 1]);
      assert t[..i] == Keyed(sel[..i]);
      byCY := byCY[RowKey(sel[i]) := sel[i]];
    }
    assert sel[..|sel|] == sel;
  }

  lemma NoBar()
    ensures forall c :: c in Countries ==> '|' !in c
  {
  }

  /** The position of the first `|` in `e|s` when `e` has none. */
  lemma BarIndex(e: string, s: string)
    requires '|' !in e
    ensures IndexIn(e + "|" + s, '|') == |e|
  {
    var x := e + "|" + s;
    assert x[|e|] == '|';
    assert forall j :: 0 <= j < |e| ==> x[j] == e[j];
  }

  /** Keys built from a country without `|` determine both halves. */
  lemma KeySplit(e: string, s: string, c: string, t: string)
    requires '|' !in e && '|' !in c
    ensures e + "|" + s == c + "|" + t <==> e == c && s == t
  {
    var x, y := e + "|" + s, c + "|" + t;
    BarIndex(e, s);
    BarIndex(c, t);
    if x == y {
      assert |e| == |c|;
      assert e == x[..|e|] && c == y[..|c|];
      assert s == x[|e| + 1..] && t == y[|c| + 1..];
    }
  }

  /** A selected row is filed under a country's year key exactly when its
      Entity is that country and its Year text is the year written plainly. */
  lemma RowKeyMatch(r: Row, rd: Reader, c: string, y: int)
    requires InPyramid(r, rd) && c in Countries
    ensures RowKey(r) == YearKey(c, y) <==> r["Entity"] == c && r["Year"] == IntToString(y)
  {
    NoBar();
    KeySplit(r["Entity"], r["Year"], c, IntToString(y));
  }

  /** The row of a selected row's country and year text. */
  predicate IsCountryYear(r: Row, c: string, y: int)
  {
    Field(r, "Entity") == Some(c) && Field(r, "Year") == Some(IntToString(y))
  }

  /** Among selected rows, the pairs filed under a country's year key are
      those of the rows of that country and year text. */
  lemma KeyedMatch(sel: seq<Row>, rd: Reader, c: string, y: int)
    requires c in Countries && forall r :: r in sel ==> InPyramid(r, rd)
    ensures var pairs := Keyed(sel);
            forall i :: 0 <= i < |pairs| ==> (pairs[i].0 == YearKey(c, y) <==> IsCountryYear(pairs[i].1, c, y))
  {
    forall i | 0 <= i < |sel| ensures RowKey(sel[i]) == YearKey(c, y) <==> IsCountryYear(sel[i], c, y) {
      assert sel[i] in sel;
      RowKeyMatch(sel[i], rd, c, y);
    }
  }

  /** `byCY.get(`${c}|${y}`)` finds a row exactly when some selected row has that
      Entity and that Year text, and then it is the last such row. */
  lemma ByCYLookup(rows: seq<Row>, rd: Reader, c: string, y: int)
    requires c in Countries
    ensures var sel := Selected(rows, rd);
            YearKey(c, y) in ByCY(rows, rd) <==> exists i :: 0 <= i < |sel| && IsCountryYear(sel[i], c, y)
    ensures var sel := Selected(rows, rd);
            YearKey(c, y) in ByCY(rows, rd) ==>
              exists i :: 0 <= i < |sel| && IsCountryYear(sel[i], c, y) && ByCY(rows, rd)[YearKey(c, y)] == sel[i] &&
                          forall j :: i < j < |sel| ==> !IsCountryYear(sel[j], c, y)
  {
    var sel := Selected(rows, rd);
    var pairs := Keyed(sel);
    var k := YearKey(c, y);
    var p := r => IsCountryYear(r, c, y);
    KeyedMatch(sel, rd, c, y);
    var i := LastWinsWhere(pairs, k, p);
    assert forall i :: 0 <= i < |sel| ==> (p(pairs[i].1) <==> IsCountryYear(sel[i], c, y));
    if k in ByCY(rows, rd) {
      assert forall j :: i < j < |sel| ==> !IsCountryYear(sel[j], c, y);
      assert ByCY(rows, rd)[k] == sel[i];
    }
  }

  /** A cell as `d3.sum` adds it: NaN counts as 0. */
  function Cell(row: Row, k: string, rd: Reader): real
  {
    OrZero(V(Some(row), k, rd))
  }

  /** `d3.sum(cols, k => v(row, k))` */
  function ColumnsSum(row: Row, cols: seq<string>, rd: Reader): real
  {
    if cols == [] then 0.0 else ColumnsSum(row, cols[..|cols| - 1], rd) + Cell(row, cols[|cols| - 1], rd)
  }

  /** What one year adds to the two sums: nothing when `byCY` has no row for it. */
  function YearSums(byCY: map<string, Row>, country: string, y: int, rd: Reader): (real, real)
  {
    var key := YearKey(country, y);
    if key in byCY then (ColumnsSum(byCY[key], Renew, rd), ColumnsSum(byCY[key], NonRenew, rd)) else (0.0, 0.0)
  }

  /** `rsum` and `nsum` after the years `a` to `y - 1`. */
  function BinSums(byCY: map<string, Row>, country: string, a: int, y: int, rd: Reader): (real, real)
    decreases y - a
  {
    if y <= a then (0.0, 0.0)
    else
      var s := BinSums(byCY, country, a, y - 1, rd);
      var t := YearSums(byCY, country, y - 1, rd);
      (s.0 + t.0, s.1 + t.1)
  }

  /** The `for (let y = a; y <= b; y++)` loop. */
  method SumBin(byCY: map<string, Row>, country: string, a: int, b: int, rd: Reader) returns (rsum: real, nsum: real)
    ensures (rsum, nsum) == BinSums(byCY, country, a, b + 1, rd)
  {
    rsum, nsum := 0.0, 0.0;
    var y := a;
    while y <= b
      invariant a <= y && (y <= b + 1 || y == a)
      invariant (rsum, nsum) == BinSums(byCY, country, a, y, rd)
      decreases b - y
    {
      var key := YearKey(country, y);
      if key in byCY {
        var row := byCY[key];
        rsum := rsum + ColumnsSum(row, Renew, rd);
        nsum := nsum + ColumnsSum(row, NonRenew, rd);
      }
      y := y + 1;
    }
  }

  /** One bar pair of the pyramid. */
  datatype Entry = Entry(country: string, band: string, renew: real, nonren: real)

  /** The signed shares of a bin: both 0 unless the total is positive. */
  function Shares(country: string, band: string, rsum: real, nsum: real): (e: Entry)
    ensures e.country == country && e.band == band
    ensures rsum + nsum <= 0.0 ==> e.renew == 0.0 && e.nonren == 0.0
    ensures rsum + nsum > 0.0 ==> e.nonren * (rsum + nsum) == nsum && e.renew * (rsum + nsum) == -rsum
    ensures rsum >= 0.0 && nsum >= 0.0 && rsum + nsum > 0.0 ==>
              -1.0 <= e.renew <= 0.0 <= e.nonren <= 1.0 && e.nonren - e.renew == 1.0
  {
    var tot := rsum + nsum;
    if tot > 0.0 then
      var r, n := rsum / tot, nsum / tot;
      assert r + n == 1.0 by {
        assert rsum / tot + nsum / tot == (rsum + nsum) / tot;
      }
      Entry(country, band, -r, n)
    else Entry(country, band, 0.0, 0.0)
  }

  /** The entry the pyramid draws for a country and a bin. */
  function PanelEntry(byCY: map<string, Row>, country: string, bin: (int, int), rd: Reader): Entry
  {
    var s := BinSums(byCY, country, bin.0, bin.1 + 1, rd);
    Shares(country, BinLabel(bin), s.0, s.1)
  }

  /** The callback of `BINS.map` for one bin: the year loop, then the shares. */
  method BinEntry(byCY: map<string, Row>, country: string, bin: (int, int), rd: Reader) returns (e: Entry)
    ensures e == PanelEntry(byCY, country, bin, rd)
  {
    var rsum, nsum := SumBin(byCY, country, bin.0, bin.1, rd);
    e := Shares(country, BinLabel(bin), rsum, nsum);
  }

  /** `BINS.map(...)` for one country. */
  method CountryPanel(byCY: map<string, Row>, country: string, bins: seq<(int, int)>, rd: Reader) returns (arr: seq<Entry>)
    ensures |arr| == |bins|
    ensures forall j :: 0 <= j < |bins| ==> arr[j] == PanelEntry(byCY, country, bins[j], rd)
  {
    arr := [];
    for j := 0 to |bins|
      invariant |arr| == j
      invariant forall k :: 0 <= k < j ==> arr[k] == PanelEntry(byCY, country, bins[k], rd)
    {
      var e := BinEntry(byCY, country, bins[j], rd);
      arr := arr + [e];
    }
  }

  /** One country's row of the pyramid: an entry per bin, in bin order. */
  predicate PanelRow(arr: seq<Entry>, byCY: map<string, Row>, country: string, bins: seq<(int, int)>, rd: Reader)
  {
    |arr| == |bins| && forall j :: 0 <= j < |bins| ==> arr[j] == PanelEntry(byCY, country, bins[j], rd)
  }

  /** `panelData` for the countries `cs`: one row of entries per country, in order. */
  predicate IsPanel(panel: seq<seq<Entry>>, byCY: map<string, Row>, cs: seq<string>, bins: seq<(int, int)>, rd: Reader)
  {
    |panel| == |cs| && forall i :: 0 <= i < |cs| ==> PanelRow(panel[i], byCY, cs[i], bins, rd)
  }

  method PanelFor(byCY: map<string, Row>, cs: seq<string>, bins: seq<(int, int)>, rd: Reader) returns (panel: seq<seq<Entry>>)
    ensures IsPanel(panel, byCY, cs, bins, rd)
  {
    panel := [];
    for i := 0 to |cs|
      invariant |panel| == i
      invariant forall k :: 0 <= k < i ==> PanelRow(panel[k], byCY, cs[k], bins, rd)
    {
      var arr := CountryPanel(byCY, cs[i], bins, rd);
      assert PanelRow(arr, byCY, cs[i], bins, rd);
      panel := panel + [arr];
    }
  }

  /** The pyramid's data: select, index by country and year, then one entry
      per country and bin. */
  method PanelData(rows: seq<Row>, rd: Reader) returns (panel: seq<seq<Entry>>)
    ensures IsPanel(panel, ByCY(rows, rd), Countries, Bins, rd)
  {
    var byCY := IndexRows(Selected(rows, rd));
    panel := PanelFor(byCY, Countries, Bins, rd);
  }

  /** Every selected cell of the pyramid's columns reads as a non-negative number (or NaN). */
  predicate NonNegativeCells(row: Row, cols: seq<string>, rd: Reader)
  {
    forall i :: 0 <= i < |cols| ==> Cell(row, cols[i], rd) >= 0.0
  }

  predicate NonNegativeRows(byCY: map<string, Row>, rd: Reader)
  {
    forall k :: k in byCY ==> NonNegativeCells(byCY[k], Renew, rd) && NonNegativeCells(byCY[k], NonRenew, rd)
  }

  lemma {:induction false} ColumnsSumNonNegative(row: Row, cols: seq<string>, rd: Reader)
    requires NonNegativeCells(row, cols, rd)
    ensures ColumnsSum(row, cols, rd) >= 0.0
    decreases |cols|
  {
    if cols != [] {
      var init := cols[..|cols| - 1];
      assert NonNegativeCells(row, init, rd) by {
        forall i | 0 <= i < |init| ensures Cell(row, init[i], rd) >= 0.0 { assert init[i] == cols[i]; }
      }
      ColumnsSumNonNegative(row, init, rd);
    }
  }

  lemma {:induction false} BinSumsNonNegative(byCY: map<string, Row>, country: string, a: int, y: int, rd: Reader)
    requires NonNegativeRows(byCY, rd)
    ensures BinSums(byCY, country, a, y, rd).0 >= 0.0 && BinSums(byCY, country, a, y, rd).1 >= 0.0
    decreases y - a
  {
    if y > a {
      BinSumsNonNegative(byCY, country, a, y - 1, rd);
      var key := YearKey(country, y - 1);
      if key in byCY {
        ColumnsSumNonNegative(byCY[key], Renew, rd);
        ColumnsSumNonNegative(byCY[key], NonRenew, rd);
      }
    }
  }

  /** With non-negative data, a bin with any production has its renewable bar
      in [-1, 0] and its non-renewable bar in [0, 1], and the two span exactly 1. */
  lemma PanelShares(byCY: map<string, Row>, country: string, bin: (int, int), rd: Reader)
    requires NonNegativeRows(byCY, rd)
    ensures var e := PanelEntry(byCY, country, bin, rd);
            -1.0 <= e.renew <= 0.0 <= e.nonren <= 1.0 &&
            (e.renew != 0.0 || e.nonren != 0.0 ==> e.nonren - e.renew == 1.0)
  {
    BinSumsNonNegative(byCY, country, bin.0, bin.1 + 1, rd);
  }

  /** Years without a row contribute nothing: a bin none of whose years has a
      row draws two empty bars. */
  lemma {:induction false} EmptyBin(byCY: map<string, Row>, country: string, a: int, y: int, rd: Reader)
    requires forall z :: a <= z < y ==> YearKey(country, z) !in byCY
    ensures BinSums(byCY, country, a, y, rd) == (0.0, 0.0)
    decreases y - a
  {
    if y > a {
      EmptyBin(byCY, country, a, y - 1, rd);
    }
  }

  // ----- Per-capita ridgelines by decade -----

  const RidgeCountries: seq<string> := ["Norway", "Switzerland", "Sweden"]

  const PerCapitaCol := "Primary energy consumption per capita (kWh/person)"

  /** One `{ country, year, value }` record that survived the finiteness filter. */
  datatype Sample = Sample(country: string, year: real, value: real)

  /** The record of a row, kept only when both its year and its value are numbers. */
  function ToSample(r: Row, rd: Reader): Option<Sample>
  {
    var y := PlusCell(rd, Field(r, "Year"));
    var v := PlusCell(rd, Field(r, PerCapitaCol));
    if y.Finite? && v.Finite? then Some(Sample(Str(Field(r, "Entity")), y.r, v.r)) else None
  }

  predicate InRidge(r: Row)
  {
    FieldIn(r, "Entity", RidgeCountries)
  }

  function SampleOfRow(rd: Reader): Row -> Option<Sample>
  {
    r => ToSample(r, rd)
  }

  /** The record a row contributes to `data`, in one pass. */
  function RidgeIn(rd: Reader): Row -> Option<Sample>
  {
    KeptImage(InRidge, SampleOfRow(rd))
  }

  /** `data`: the rows of the three countries whose year and value read as
      numbers, one record per such row, in row order. */
  function RidgeData(rows: seq<Row>, rd: Reader): (data: seq<Sample>)
    ensures forall s :: s in data <==> exists i :: 0 <= i < |rows| && InRidge(rows[i]) && ToSample(rows[i], rd) == Some(s)
    ensures forall s :: s in data ==> s.country in RidgeCountries
    ensures data == MapSomes(rows, RidgeIn(rd))
    ensures var sel := Filter(rows, HasImage(RidgeIn(rd)));
      |data| == |sel| && forall i :: 0 <= i < |sel| ==> InRidge(sel[i]) && ToSample(sel[i], rd) == Some(data[i])
  {
    FilterMapSomes(rows, InRidge, SampleOfRow(rd));
    MapSomesOfFilter(rows, InRidge, SampleOfRow(rd));
    MapSomesAt(rows, RidgeIn(rd));
    MapSomes(Filter(rows, InRidge), SampleOfRow(rd))
  }

  /** `decadeOf(y)`: the year rounded down to a multiple of ten. */
  function DecadeOf(y: real): (d: int)
    ensures d % 10 == 0
    ensures d as real <= y < d as real + 10.0
  {
    (y / 10.0).Floor * 10
  }

  function SampleDecade(s: Sample): int
  {
    DecadeOf(s.year)
  }

  function IntKey(d: int): real
  {
    d as real
  }

  /** `Array.from(new Set(data.map(d => decadeOf(d.year)))).sort((a, b) => a - b)` */
  function Decades(data: seq<Sample>): (ds: seq<int>)
    ensures forall i, j :: 0 <= i < j < |ds| ==> ds[i] < ds[j]
    ensures forall d :: d in ds <==> exists i :: 0 <= i < |data| && DecadeOf(data[i].year) == d
  {
    var ks := Keys(data, SampleDecade);
    var ds := SortBy(ks, IntKey);
    DistinctPermutation(ks, ds);
    SameMembers(ks, ds);
    StrictlyAscending(ds);
    ds
  }

  lemma StrictlyAscending(ds: seq<int>)
    requires SortedBy(ds, IntKey) && Distinct(ds)
    ensures forall i, j :: 0 <= i < j < |ds| ==> ds[i] < ds[j]
  {
    forall i, j | 0 <= i < j < |ds| ensures ds[i] < ds[j] {
      assert IntKey(ds[i]) <= IntKey(ds[j]);
    }
  }

  /** `byDecadeCountry.get(dec)?.get(country) || []`: the values of one country in
      one decade, in data order. */
  function DecadeValues(data: seq<Sample>, dec: int, country: string): (vs: seq<real>)
    ensures |vs| > 0 <==> exists i :: 0 <= i < |data| && DecadeOf(data[i].year) == dec && data[i].country == country
  {
    var group := Filter(data, (s: Sample) => DecadeOf(s.year) == dec && s.country == country);
    assert forall i :: 0 <= i < |data| && DecadeOf(data[i].year) == dec && data[i].country == country ==> data[i] in group;
    assert |group| > 0 ==> group[0] in data && exists i :: 0 <= i < |data| && data[i] == group[0];
    seq(|group|, i requires 0 <= i < |group| => group[i].value)
  }

  /** The ridgeline decades, or `None` when no row survives and the chart is
      not drawn. */
  function RidgeDecades(rows: seq<Row>, rd: Reader): (r: Option<seq<int>>)
    ensures r.None? <==> RidgeData(rows, rd) == []
  {
    var data := RidgeData(rows, rd);
    if data == [] then None else Some(Decades(data))
  }

  /** No listed decade is skipped: each has values for at least one of the
      three countries, so the early `return` of the drawing loop never fires. */
  lemma DecadeDrawn(rows: seq<Row>, rd: Reader, dec: int)
    requires RidgeDecades(rows, rd).Some? && dec in RidgeDecades(rows, rd).value
    ensures exists k :: 0 <= k < |RidgeCountries| && |DecadeValues(RidgeData(rows, rd), dec, RidgeCountries[k])| > 0
  {
    var data := RidgeData(rows, rd);
    var i :| 0 <= i < |data| && DecadeOf(data[i].year) == dec;
    DecadeOfListed(data, i);
  }

  /** A record of a listed country gives its decade values for that country. */
  lemma DecadeOfListed(data: seq<Sample>, i: int)
    requires forall s :: s in data ==> s.country in RidgeCountries
    requires 0 <= i < |data|
    ensures exists k :: 0 <= k < |RidgeCountries| && |DecadeValues(data, DecadeOf(data[i].year), RidgeCountries[k])| > 0
  {
    assert data[i] in data;
    var k :| 0 <= k < |RidgeCountries| && RidgeCountries[k] == data[i].country;
    assert |DecadeValues(data, DecadeOf(data[i].year), RidgeCountries[k])| > 0;
  }

  /** `lo` is a value no other value lies below. */
  predicate IsLeast(values: seq<real>, lo: real)
  {
    lo in values && forall k :: 0 <= k < |values| ==> lo <= values[k]
  }

  /** `hi` is a value no other value lies above. */
  predicate IsGreatest(values: seq<real>, hi: real)
  {
    hi in values && forall k :: 0 <= k < |values| ==> values[k] <= hi
  }

  /** `xDomain`: the value range widened by 5% on each side, or by 1 when
      every value is the same; every value lies strictly inside it. */
  function XDomain(values: seq<real>): (d: (real, real))
    requires values != []
    ensures forall i :: 0 <= i < |values| ==> d.0 < values[i] < d.1
    ensures forall lo, hi :: IsLeast(values, lo) && IsGreatest(values, hi) ==>
      d.0 + d.1 == lo + hi && d.1 - d.0 == if lo == hi then 2.0 else 1.1 * (hi - lo)
  {
    var lo := MinOf(values).value;
    var hi := MaxOf(values).value;
    var pad := if (hi - lo) * 0.05 == 0.0 then 1.0 else (hi - lo) * 0.05;
    assert lo <= hi by { assert values[0] in values; }
    (lo - pad, hi + pad)
  }

  // ----- CO2 box plot -----

  /** The CO2 column names tried, in order. */
  const Candidates: seq<string> := [
    "Annual CO₂ emissions (per capita)",
    "Annual CO2 emissions (per capita)",
    "Annual_CO2_emissions",
    "Annual CO₂ emissions",
    "Annual CO2 emissions"
  ]

  /** The first candidate that is a column of the first row; `None` when there
      are no rows or none of them is a column, and the chart is not drawn. */
  function CO2Column(rows: seq<Row>): (c: Option<string>)
    ensures c.None? <==> rows == [] || forall i :: 0 <= i < |Candidates| ==> Candidates[i] !in rows[0]
    ensures c.Some? ==> exists i :: 0 <= i < |Candidates| && Candidates[i] == c.value && c.value in rows[0] &&
                                    forall j :: 0 <= j < i ==> Candidates[j] !in rows[0]
  {
    if rows == [] then None else Find(Candidates, c => c in rows[0])
  }

  /** One `{ country, year, value }` record of the box plot. */
  datatype Point = Point(country: string, year: real, value: real)

  /** A listed country, and a year that reads as at least 2000. */
  predicate InBox(r: Row, rd: Reader)
  {
    FieldIn(r, "Entity", Countries) &&
    var y := PlusCell(rd, Field(r, "Year"));
    y.Finite? && y.r >= 2000.0
  }

  /** The record of a selected row, kept when the cleaned CO2 cell reads as a number. */
  function ToPoint(r: Row, col: string, rd: Reader): Option<Point>
  {
    var v := ToNumParse(rd, Field(r, col));
    if v.Finite? then Some(Point(Str(Field(r, "Entity")), OrZero(PlusCell(rd, Field(r, "Year"))), v.r)) else None
  }

  function InBoxOf(rd: Reader): Row -> bool
  {
    r => InBox(r, rd)
  }

  function PointOfRow(col: string, rd: Reader): Row -> Option<Point>
  {
    r => ToPoint(r, col, rd)
  }

  /** The record a row contributes to `data`, in one pass. */
  function BoxIn(col: string, rd: Reader): Row -> Option<Point>
  {
    KeptImage(InBoxOf(rd), PointOfRow(col, rd))
  }

  /** `data`: the records of the selected rows whose CO2 value is a number,
      one record per such row, in row order. */
  function BoxData(rows: seq<Row>, col: string, rd: Reader): (data: seq<Point>)
    ensures forall p :: p in data <==> exists r :: r in rows && InBox(r, rd) && ToPoint(r, col, rd) == Some(p)
    ensures data == MapSomes(rows, BoxIn(col, rd))
    ensures var sel := Filter(rows, HasImage(BoxIn(col, rd)));
      |data| == |sel| && forall i :: 0 <= i < |sel| ==> InBox(sel[i], rd) && ToPoint(sel[i], col, rd) == Some(data[i])
  {
    FilterMapSomes(rows, InBoxOf(rd), PointOfRow(col, rd));
    MapSomesOfFilter(rows, InBoxOf(rd), PointOfRow(col, rd));
    MapSomesAt(rows, BoxIn(col, rd));
    MapSomes(Filter(rows, InBoxOf(rd)), PointOfRow(col, rd))
  }

  /** The values of a group, in group order. */
  function ValuesOf(arr: seq<Point>): (vs: seq<real>)
    ensures |vs| == |arr|
    ensures forall i :: 0 <= i < |arr| ==> vs[i] == arr[i].value
  {
    seq(|arr|, i requires 0 <= i < |arr| => arr[i].value)
  }

  /** Non-decreasing: what `sort(d3.ascending)` leaves. */
  predicate Ascending(s: seq<real>)
  {
    forall i, j :: 0 <= i < j < |s| ==> s[i] <= s[j]
  }

  lemma SortedAscending(s: seq<real>)
    requires SortedBy(s, Identity)
    ensures Ascending(s)
  {
    forall i, j | 0 <= i < j < |s| ensures s[i] <= s[j] {
      assert Identity(s[i]) <= Identity(s[j]);
    }
  }

  lemma ScaleBelow(m: real, p: real)
    requires m > 0.0 && 0.0 < p < 1.0
    ensures 0.0 < m * p < m
  {
    assert m * (1.0 - p) > 0.0;
  }

  /** `(n - 1) p`: where the `p`-quantile of `n` sorted values lies. */
  function Position(n: nat, p: real): (x: real)
    requires n >= 2 && 0.0 < p < 1.0
    ensures 0.0 < x < (n - 1) as real
  {
    ScaleBelow((n - 1) as real, p);
    (n - 1) as real * p
  }

  /** The `i0` of `d3.quantile`: the lower of the two neighbouring positions. */
  function QuantileIndex(n: nat, p: real): (i0: int)
    requires n >= 2 && 0.0 < p < 1.0
    ensures 0 <= i0 < n - 1
    ensures i0 as real <= Position(n, p) < i0 as real + 1.0
  {
    Position(n, p).Floor
  }

  lemma QuantileBetween(a: real, b: real, f: real)
    requires a <= b && 0.0 <= f < 1.0
    ensures a <= Lerp(a, b, f) <= b
  {
    MulNonNegative(b - a, f);
    MulNonNegative(b - a, 1.0 - f);
    assert (b - a) * (1.0 - f) == (b - a) - (b - a) * f;
  }

  /** Interpolating between two sorted values stays within the sequence's range. */
  lemma InterpolationRange(vals: seq<real>, i0: int, f: real)
    requires Ascending(vals) && 0 <= i0 < |vals| - 1 && 0.0 <= f < 1.0
    ensures vals[i0] <= Lerp(vals[i0], vals[i0 + 1], f) <= vals[i0 + 1]
    ensures vals[0] <= vals[i0] && vals[i0 + 1] <= vals[|vals| - 1]
  {
    QuantileBetween(vals[i0], vals[i0 + 1], f);
  }

  /** How far a position lies past its lower neighbour. */
  function Fraction(x: real): (f: real)
    ensures 0.0 <= f < 1.0
  {
    x - x.Floor as real
  }

  /** The point a fraction `f` of the way from `a` to `b`. */
  function Lerp(a: real, b: real, f: real): real
  {
    a + (b - a) * f
  }

  /** `d3.quantile(vals, p)` on sorted values: linear interpolation between
      the two values around position `(n - 1) p`. */
  function Quantile(vals: seq<real>, p: real): (q: real)
    requires vals != [] && Ascending(vals) && 0.0 < p < 1.0
    ensures vals[0] <= q <= vals[|vals| - 1]
    ensures |vals| >= 2 ==> vals[QuantileIndex(|vals|, p)] <= q <= vals[QuantileIndex(|vals|, p) + 1]
  {
    var n := |vals|;
    if n < 2 then vals[0]
    else
      var i0 := QuantileIndex(n, p);
      var f := Fraction(Position(n, p));
      InterpolationRange(vals, i0, f);
      Lerp(vals[i0], vals[i0 + 1], f)
  }

  lemma MulNonNegative(x: real, y: real)
    requires x >= 0.0 && y >= 0.0
    ensures x * y >= 0.0
  {
  }

  lemma ScaleMonotone(m: real, p: real, p': real)
    requires m >= 0.0 && p <= p'
    ensures m * p <= m * p'
  {
    MulNonNegative(m, p' - p);
    assert m * (p' - p) == m * p' - m * p;
  }

  lemma InterpolateMonotone(a: real, b: real, f: real, f': real)
    requires a <= b && f <= f'
    ensures Lerp(a, b, f) <= Lerp(a, b, f')
  {
    ScaleMonotone(b - a, f, f');
  }

  /** Positions further along have a lower neighbour at least as far along. */
  lemma IndexMonotone(n: nat, p: real, p': real)
    requires n >= 2 && 0.0 < p <= p' < 1.0
    ensures QuantileIndex(n, p) <= QuantileIndex(n, p')
  {
    PositionMonotone(n, p, p');
    FloorMonotone(Position(n, p), Position(n, p'), QuantileIndex(n, p), QuantileIndex(n, p'));
  }

  lemma PositionMonotone(n: nat, p: real, p': real)
    requires n >= 2 && 0.0 < p <= p' < 1.0
    ensures Position(n, p) <= Position(n, p')
  {
    ScaleMonotone((n - 1) as real, p, p');
  }

  lemma FloorMonotone(x: real, y: real, a: int, b: int)
    requires a as real <= x <= y < b as real + 1.0
    ensures a <= b
  {
  }

  /** Two positions with the same lower neighbour lie in the same order as
      their `p`. */
  lemma FractionMonotone(x: real, x': real)
    requires x <= x' && x.Floor == x'.Floor
    ensures Fraction(x) <= Fraction(x')
  {
  }

  /** A larger `p` gives a larger quantile. */
  lemma QuantileMonotone(vals: seq<real>, p: real, p': real)
    requires vals != [] && Ascending(vals) && 0.0 < p <= p' < 1.0
    ensures Quantile(vals, p) <= Quantile(vals, p')
  {
    var n := |vals|;
    if n >= 2 {
      var i0, i0' := QuantileIndex(n, p), QuantileIndex(n, p');
      IndexMonotone(n, p, p');
      if i0 == i0' {
        var x, x' := Position(n, p), Position(n, p');
        PositionMonotone(n, p, p');
        FractionMonotone(x, x');
        InterpolateMonotone(vals[i0], vals[i0 + 1], Fraction(x), Fraction(x'));
        assert Quantile(vals, p) == Lerp(vals[i0], vals[i0 + 1], Fraction(x));
        assert Quantile(vals, p') == Lerp(vals[i0], vals[i0 + 1], Fraction(x'));
      } else {
        calc {
          Quantile(vals, p);
        <= vals[i0 + 1];
        <= vals[i0'];
        <= Quantile(vals, p');
        }
      }
    }
  }

  function LowFence(q1: real, q3: real): real { q1 - 1.5 * (q3 - q1) }

  function UpFence(q1: real, q3: real): real { q3 + 1.5 * (q3 - q1) }

  function AtLeast(vals: seq<real>, f: real): seq<real> { Filter(vals, x => x >= f) }

  function AtMost(vals: seq<real>, f: real): seq<real> { Filter(vals, x => x <= f) }

  /** `d3.min(vals.filter(v => v >= lowFence)) ?? d3.min(vals)` */
  function LowWhisker(vals: seq<real>, fence: real): real
    requires vals != []
  {
    match MinOf(AtLeast(vals, fence))
    case Some(m) => m
    case None => MinOf(vals).value
  }

  /** `d3.max(vals.filter(v => v <= upFence)) ?? d3.max(vals)` */
  function HighWhisker(vals: seq<real>, fence: real): real
    requires vals != []
  {
    match MaxOf(AtMost(vals, fence))
    case Some(m) => m
    case None => MaxOf(vals).value
  }

  /** `arr.filter(d => d.value < min || d.value > max)` */
  function Outside(arr: seq<Point>, lo: real, hi: real): seq<Point>
  {
    Filter(arr, (d: Point) => d.value < lo || d.value > hi)
  }

  datatype BoxStats = BoxStats(q1: real, med: real, q3: real, min: real, max: real)

  datatype Box = Box(country: string, vals: seq<real>, stats: BoxStats, outliers: seq<Point>)

  /** The box of one country group. */
  function BoxOf(country: string, arr: seq<Point>): (b: Box)
    requires arr != []
    ensures b.country == country
    ensures SortedBy(b.vals, Identity) && multiset(b.vals) == multiset(ValuesOf(arr))
  {
    var vals := SortBy(ValuesOf(arr), Identity);
    SortedAscending(vals);
    var q1 := Quantile(vals, 0.25);
    var med := Quantile(vals, 0.5);
    var q3 := Quantile(vals, 0.75);
    var min := LowWhisker(vals, LowFence(q1, q3));
    var max := HighWhisker(vals, UpFence(q1, q3));
    Box(country, vals, BoxStats(q1, med, q3, min, max), Outside(arr, min, max))
  }

  /** When some value reaches the fence, the low whisker is the least such
      value, and a value lies below the whisker iff it lies below the fence. */
  lemma LowWhiskerLeast(vals: seq<real>, fence: real, k: int)
    requires 0 <= k < |vals| && vals[k] >= fence
    ensures var w := LowWhisker(vals, fence);
            w in vals && fence <= w &&
            forall x :: x in vals ==> (x < w <==> x < fence)
  {
    var above := AtLeast(vals, fence);
    assert vals[k] in above;
    var w := MinOf(above).value;
    forall x | x in vals ensures x < w <==> x < fence {
      if x >= fence {
        assert x in above;
        var j :| 0 <= j < |above| && above[j] == x;
      }
    }
  }

  /** The mirror image for the high whisker. */
  lemma HighWhiskerGreatest(vals: seq<real>, fence: real, k: int)
    requires 0 <= k < |vals| && vals[k] <= fence
    ensures var w := HighWhisker(vals, fence);
            w in vals && w <= fence &&
            forall x :: x in vals ==> (x > w <==> x > fence)
  {
    var below := AtMost(vals, fence);
    assert vals[k] in below;
    var w := MaxOf(below).value;
    forall x | x in vals ensures x > w <==> x > fence {
      if x <= fence {
        assert x in below;
        var j :| 0 <= j < |below| && below[j] == x;
      }
    }
  }

  /** `q1 <= med <= q3`, all within the range of the values. */
  lemma BoxQuartiles(country: string, arr: seq<Point>)
    requires arr != []
    ensures var b := BoxOf(country, arr);
            b.vals[0] <= b.stats.q1 <= b.stats.med <= b.stats.q3 <= b.vals[|b.vals| - 1]
  {
    var vals := SortBy(ValuesOf(arr), Identity);
    SortedAscending(vals);
    QuantileMonotone(vals, 0.25, 0.5);
    QuantileMonotone(vals, 0.5, 0.75);
  }

  /** Tukey's rule: the whiskers end at the most extreme values inside the
      fences `q1 - 1.5 iqr` and `q3 + 1.5 iqr`, so the `??` fallbacks never apply. */
  lemma BoxWhiskers(country: string, arr: seq<Point>)
    requires arr != []
    ensures var b := BoxOf(country, arr);
            var lo, hi := LowFence(b.stats.q1, b.stats.q3), UpFence(b.stats.q1, b.stats.q3);
            b.stats.min in b.vals && lo <= b.stats.min &&
            b.stats.max in b.vals && b.stats.max <= hi &&
            (forall x :: x in b.vals && lo <= x ==> b.stats.min <= x) &&
            (forall x :: x in b.vals && x <= hi ==> x <= b.stats.max)
  {
    var b := BoxOf(country, arr);
    BoxQuartiles(country, arr);
    var lo, hi := LowFence(b.stats.q1, b.stats.q3), UpFence(b.stats.q1, b.stats.q3);
    assert lo <= b.vals[|b.vals| - 1] && b.vals[0] <= hi;
    LowWhiskerLeast(b.vals, lo, |b.vals| - 1);
    HighWhiskerGreatest(b.vals, hi, 0);
  }

  /** Every point's value is among the sorted values of its box. */
  lemma BoxValues(country: string, arr: seq<Point>)
    requires arr != []
    ensures forall d :: d in arr ==> d.value in BoxOf(country, arr).vals
  {
    var vs := ValuesOf(arr);
    var vals := BoxOf(country, arr).vals;
    assert multiset(vals) == multiset(vs);
    forall d | d in arr ensures d.value in vals {
      var i :| 0 <= i < |arr| && arr[i] == d;
      assert vs[i] == d.value;
      assert d.value in multiset(vs);
    }
  }

  /** Below the low whisker means below the low fence, and above the high
      whisker means above the high fence. */
  predicate WhiskersMatchFences(vals: seq<real>, min: real, max: real, lo: real, hi: real)
  {
    forall x :: x in vals ==> (x < min <==> x < lo) && (x > max <==> x > hi)
  }

  lemma BoxWhiskerSides(country: string, arr: seq<Point>)
    requires arr != []
    ensures var b := BoxOf(country, arr);
            WhiskersMatchFences(b.vals, b.stats.min, b.stats.max, LowFence(b.stats.q1, b.stats.q3), UpFence(b.stats.q1, b.stats.q3))
  {
    var b := BoxOf(country, arr);
    BoxQuartiles(country, arr);
    var lo, hi := LowFence(b.stats.q1, b.stats.q3), UpFence(b.stats.q1, b.stats.q3);
    assert lo <= b.vals[|b.vals| - 1] && b.vals[0] <= hi;
    LowWhiskerLeast(b.vals, lo, |b.vals| - 1);
    HighWhiskerGreatest(b.vals, hi, 0);
  }

  /** A point is an outlier exactly when it lies outside the fences. */
  lemma BoxOutliers(country: string, arr: seq<Point>)
    requires arr != []
    ensures var b := BoxOf(country, arr);
            var lo, hi := LowFence(b.stats.q1, b.stats.q3), UpFence(b.stats.q1, b.stats.q3);
            forall d :: d in arr ==> (d in b.outliers <==> d.value < lo || d.value > hi)
  {
    var b := BoxOf(country, arr);
    BoxWhiskerSides(country, arr);
    BoxValues(country, arr);
    OutsideFences(arr, b.vals, b.stats.min, b.stats.max, LowFence(b.stats.q1, b.stats.q3), UpFence(b.stats.q1, b.stats.q3));
  }

  lemma OutsideFences(arr: seq<Point>, vals: seq<real>, min: real, max: real, lo: real, hi: real)
    requires forall d :: d in arr ==> d.value in vals
    requires WhiskersMatchFences(vals, min, max, lo, hi)
    ensures forall d :: d in arr ==> (d in Outside(arr, min, max) <==> d.value < lo || d.value > hi)
  {
  }

  /** Every point that is not an outlier lies between the whiskers. */
  lemma BoxInliers(country: string, arr: seq<Point>)
    requires arr != []
    ensures var b := BoxOf(country, arr);
            forall d :: d in arr && d !in b.outliers ==> b.stats.min <= d.value <= b.stats.max
  {
  }

  function MedianOf(b: Box): real
  {
    b.stats.med
  }

  /** One box per country group of `data`, in first-appearance order. */
  function Boxes(data: seq<Point>): (bs: seq<Box>)
    ensures |bs| == |Keys(data, PointCountry)|
    ensures forall i :: 0 <= i < |bs| ==> bs[i].country == Keys(data, PointCountry)[i]
    ensures forall i :: 0 <= i < |bs| ==>
      var g := Groups(data, PointCountry)[i];
      bs[i] == BoxOf(g.0, g.1)
  {
    var groups := Groups(data, PointCountry);
    seq(|groups|, i requires 0 <= i < |groups| => BoxOf(groups[i].0, groups[i].1))
  }

  function PointCountry(p: Point): string
  {
    p.country
  }

  /** `grouped`: `None` when no candidate column exists and the chart is not
      drawn; otherwise the boxes of the country groups sorted by median. */
  function BoxPlot(rows: seq<Row>, rd: Reader): (r: Option<seq<Box>>)
    ensures r.None? <==> CO2Column(rows).None?
    ensures r.Some? ==> var bs := Boxes(BoxData(rows, CO2Column(rows).value, rd));
                        SortedBy(r.value, MedianOf) && multiset(r.value) == multiset(bs)
  {
    match CO2Column(rows)
    case None => None
    case Some(col) => Some(SortBy(Boxes(BoxData(rows, col, rd)), MedianOf))
  }
}
