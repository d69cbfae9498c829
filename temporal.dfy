/** The CO₂ area chart: per-capita emissions of five countries since 1900,
    one series per country ordered by its mean, and the set of countries the
    user has picked in the legend. */
module EmissionsOverTime {
  import opened Collections
  import opened Js

  const Countries: seq<string> := ["Germany", "United Kingdom", "Norway", "Netherlands", "Greece"]
  const Column := "Annual_CO2_emissions"
  const FirstYear := 1900

  /** `d.Year` compared with a number, and `+d.Year`. */
  function YearNum(rd: Reader, d: Row): Num
  {
    PlusCell(rd, Field(d, "Year"))
  }

  /** `toNum(d[COL])`: strip, then `parseFloat`. */
  function ValueNum(rd: Reader, d: Row): Num
  {
    ToNumParse(rd, Field(d, Column))
  }

  /** An element of `data`; the filters leave only numbers in it. */
  datatype Point = Point(country: string, year: real, value: real)

  /** Both filters: a listed country, a year from 1900 on and a numeric value. */
  function PointOf(rd: Reader, d: Row): (p: Option<Point>)
    ensures p.Some? <==>
      FieldIn(d, "Entity", Countries) && YearNum(rd, d).Finite? && YearNum(rd, d).r >= FirstYear as real &&
      ValueNum(rd, d).Finite?
    ensures p.Some? ==>
      p.value == Point(d["Entity"], YearNum(rd, d).r, ValueNum(rd, d).r)
  {
    var year := YearNum(rd, d);
    if FieldIn(d, "Entity", Countries) && year.Finite? && year.r >= FirstYear as real then
      var value := ValueNum(rd, d);
      if value.Finite? then Some(Point(d["Entity"], year.r, value.r)) else None
    else None
  }

  function PointOfRow(rd: Reader): Row -> Option<Point>
  {
    d => PointOf(rd, d)
  }

  /** `data`: one point per row that passes both filters, in row order. */
  function Data(rd: Reader, rows: seq<Row>): (data: seq<Point>)
    ensures forall p :: p in data <==> exists i :: 0 <= i < |rows| && PointOf(rd, rows[i]) == Some(p)
    ensures var sel := Filter(rows, HasImage(PointOfRow(rd)));
      |data| == |sel| && forall i :: 0 <= i < |sel| ==> PointOf(rd, sel[i]) == Some(data[i])
  {
    MapSomesAt(rows, PointOfRow(rd));
    MapSomes(rows, PointOfRow(rd))
  }

  /** Every point is of a listed country, from 1900 on. */
  lemma DataInRange(rd: Reader, rows: seq<Row>)
    ensures forall p :: p in Data(rd, rows) ==> p.country in Countries && p.year >= FirstYear as real
  {
    forall p | p in Data(rd, rows) ensures p.country in Countries && p.year >= FirstYear as real {
      var j :| 0 <= j < |rows| && PointOf(rd, rows[j]) == Some(p);
    }
  }

  function YearKey(p: Point): real
  {
    p.year
  }

  function ValueOf(p: Point): real
  {
    p.value
  }

  /** An element of `byCountry`. */
  datatype Series = Series(country: string, values: seq<Point>, meanValue: real)

  /** A country group with its points sorted by year and their mean. */
  function SeriesOf(country: string, arr: seq<Point>): (s: Series)
    requires arr != []
    ensures s.country == country
    ensures SortedBy(s.values, YearKey) && multiset(s.values) == multiset(arr)
    ensures IsMean(s.meanValue, s.values)
  {
    var values := SortBy(arr, YearKey);
    Series(country, values, MeanValue(values))
  }

  /** How far a point's value lies above `m`. */
  function Deviation(m: real): Point -> real
  {
    (p: Point) => p.value - m
  }

  /** `m` is the mean of the values of the points: their deviations from it
      cancel out. */
  predicate IsMean(m: real, values: seq<Point>)
  {
    SumBy(values, Deviation(m)) == 0.0
  }

  /** The deviations from `m` add up to the sum less `m` once per point. */
  lemma {:induction false} SumDeviations(values: seq<Point>, m: real)
    ensures SumBy(values, Deviation(m)) + (|values| as real) * m == SumBy(values, ValueOf)
    decreases |values|
  {
    if values != [] {
      var n := |values| - 1;
      SumDeviations(values[..n], m);
      assert (|values| as real) * m == (n as real) * m + m;
    }
  }

  /** `d3.mean(values, d => d.value)` over points, whose values are all numbers. */
  function MeanValue(values: seq<Point>): (m: real)
    requires values != []
    ensures IsMean(m, values)
  {
    var n := |values| as real;
    var total := SumBy(values, ValueOf);
    SumDeviations(values, total / n);
    assert n * (total / n) == total;
    total / n
  }

  function NegMean(s: Series): real
  {
    -s.meanValue
  }

  function PointCountry(p: Point): string
  {
    p.country
  }

  function SeriesCountry(s: Series): string
  {
    s.country
  }

  function Unsorted(data: seq<Point>): (ss: seq<Series>)
    ensures |ss| == |Keys(data, PointCountry)|
    ensures forall i :: 0 <= i < |ss| ==>
      var g := Groups(data, PointCountry)[i];
      ss[i] == SeriesOf(g.0, g.1)
  {
    var groups := Groups(data, PointCountry);
    seq(|groups|, i requires 0 <= i < |groups| => SeriesOf(groups[i].0, groups[i].1))
  }

  /** `byCountry`: one series per country of `data`, highest mean first. */
  function ByCountry(data: seq<Point>): (ss: seq<Series>)
    ensures |ss| == |Keys(data, PointCountry)|
    ensures forall i, j :: 0 <= i < j < |ss| ==> ss[i].meanValue >= ss[j].meanValue
    ensures multiset(ss) == multiset(Unsorted(data))
  {
    SortBy(Unsorted(data), NegMean)
  }

  /** The groups, and so the unsorted series, belong to different countries. */
  lemma UnsortedCountries(data: seq<Point>)
    ensures var u := Unsorted(data);
      forall a, b :: 0 <= a < b < |u| ==> SeriesCountry(u[a]) != SeriesCountry(u[b])
  {
    var u := Unsorted(data);
    var ks := Keys(data, PointCountry);
    forall a, b | 0 <= a < b < |u| ensures SeriesCountry(u[a]) != SeriesCountry(u[b]) {
      assert u[a].country == ks[a] && u[b].country == ks[b];
    }
  }

  /** A series holds exactly its country's points, in year order, and their
      mean. */
  lemma SeriesMembers(data: seq<Point>, s: Series)
    requires s in Unsorted(data)
    ensures SortedBy(s.values, YearKey) && IsMean(s.meanValue, s.values)
    ensures forall p :: p in s.values <==> p in data && p.country == s.country
  {
    var u := Unsorted(data);
    var g := Groups(data, PointCountry);
    var k :| 0 <= k < |u| && u[k] == s;
    assert s == SeriesOf(g[k].0, g[k].1);
    SameMembers(g[k].1, s.values);
  }

  /** No two series of `byCountry` belong to the same country. */
  lemma ByCountryDistinct(data: seq<Point>)
    ensures var ss := ByCountry(data);
      forall i, j :: 0 <= i < j < |ss| ==> ss[i].country != ss[j].country
  {
    UnsortedCountries(data);
    DistinctKeysPermutation(Unsorted(data), ByCountry(data), SeriesCountry);
  }

  /** Each series of `byCountry` belongs to a different country and holds
      exactly that country's points, in year order. */
  lemma SeriesContents(data: seq<Point>, i: int)
    requires 0 <= i < |ByCountry(data)|
    ensures var ss := ByCountry(data);
      (forall j :: 0 <= j < |ss| && j != i ==> ss[j].country != ss[i].country) &&
      SortedBy(ss[i].values, YearKey) &&
      (forall p :: p in ss[i].values <==> p in data && p.country == ss[i].country)
  {
    ByCountryDistinct(data);
    PermutationMember(Unsorted(data), ByCountry(data), i);
    SeriesMembers(data, ByCountry(data)[i]);
  }

  /** Each series of `byCountry` carries the mean of its points' values. */
  lemma SeriesMean(data: seq<Point>, i: int)
    requires 0 <= i < |ByCountry(data)|
    ensures IsMean(ByCountry(data)[i].meanValue, ByCountry(data)[i].values)
  {
    PermutationMember(Unsorted(data), ByCountry(data), i);
    SeriesMembers(data, ByCountry(data)[i]);
  }

  /** Adds `x` to the set if absent and removes it if present. */
  function Flip(s: set<string>, x: string): (r: set<string>)
    ensures x in r <==> x !in s
    ensures forall y :: y != x ==> (y in r <==> y in s)
  {
    if x in s then s - {x} else s + {x}
  }

  /** Two clicks on the same legend entry leave the selection as it was. */
  lemma FlipTwice(s: set<string>, x: string)
    ensures Flip(Flip(s, x), x) == s
  {
  }

  /** The countries picked in the legend. */
  class Highlight {
    var selected: set<string>

    /** Only legend entries, which are the listed countries, can be picked. */
    predicate Valid()
      reads this
    {
      forall c :: c in selected ==> c in Countries
    }

    constructor()
      ensures selected == {} && Valid()
    {
      selected := {};
    }

    /** A click on the legend entry of `d`. */
    method Click(d: string)
      requires Valid() && d in Countries
      modifies this
      ensures selected == Flip(old(selected), d)
      ensures Valid()
    {
      if d in selected {
        selected := selected - {d};
      } else {
        selected := selected + {d};
      }
    }

    /** The opacity of a country's area. */
    function AreaOpacity(country: string): (o: real)
      reads this
      ensures selected == {} ==> o == 0.75
      ensures selected != {} ==> (o == 0.9 <==> country in selected) && (o == 0.05 <==> country !in selected)
    {
      if |selected| == 0 then 0.75 else if country in selected then 0.9 else 0.05
    }

    /** The opacity of a legend entry. */
    function LegendOpacity(d: string): (o: real)
      reads this
      ensures selected == {} ==> o == 1.0
      ensures selected != {} ==> (o == 1.0 <==> d in selected) && (o == 0.3 <==> d !in selected)
    {
      if |selected| == 0 then 1.0 else if d in selected then 1.0 else 0.3
    }

    /** The opacity of a legend circle. */
    function CircleOpacity(d: string): (o: real)
      reads this
      ensures selected == {} ==> o == 1.0
      ensures selected != {} ==> (o == 1.0 <==> d in selected) && (o == 0.15 <==> d !in selected)
    {
      if |selected| == 0 then 1.0 else if d in selected then 1.0 else 0.15
    }

    /** A picked country is never faded: its area is at least as opaque as
        before any pick, and an unpicked one is faded once anything is. */
    lemma PickedStandsOut(c: string, other: string)
      requires c in selected && other !in selected
      ensures AreaOpacity(c) > 0.75 > AreaOpacity(other)
      ensures CircleOpacity(c) > CircleOpacity(other)
    {
    }
  }
}
