/** The energy cartogram: the rows of the latest year, an energy lookup keyed
    by country name and by code, the five-band fill colour of a country, the
    scale input of its shape and the comma grouping of the tooltip figure. */
module Cartogram {
  import opened Collections
  import opened Js
  import opened Text

  const EnergyColumn := "Primary energy consumption per capita (kWh/person)"

  /** `+d.Year` */
  function YearOf(rd: Reader, d: Row): Num
  {
    PlusCell(rd, Field(d, "Year"))
  }

  /** The first of the distinct years sorted in descending order: the largest
      numeric year, none for a file without one. */
  function LatestYear(rd: Reader, energy: seq<Row>): (y: Option<real>)
    ensures y.None? <==> forall i :: 0 <= i < |energy| ==> YearOf(rd, energy[i]).NaN?
    ensures y.Some? ==> exists i :: 0 <= i < |energy| && YearOf(rd, energy[i]) == Finite(y.value)
    ensures y.Some? ==> forall i :: 0 <= i < |energy| && YearOf(rd, energy[i]).Finite? ==> YearOf(rd, energy[i]).r <= y.value
  {
    var years := MapSomes(energy, d => FiniteReal(YearOf(rd, d)));
    var m := MaxOf(years);
    if m.Some? then
      assert m.value in years;
      m
    else
      assert forall i :: 0 <= i < |energy| ==> YearOf(rd, energy[i]).NaN? by {
        forall i | 0 <= i < |energy| ensures YearOf(rd, energy[i]).NaN? {
          assert FiniteReal(YearOf(rd, energy[i])).None?;
        }
      }
      m
  }

  predicate InLatest(rd: Reader, latest: Option<real>, d: Row)
  {
    latest.Some? && YearOf(rd, d) == Finite(latest.value)
  }

  function InLatestOf(rd: Reader, latest: Option<real>): Row -> bool
  {
    d => InLatest(rd, latest, d)
  }

  /** `latestData`: the rows whose year is the latest one. */
  function LatestData(rd: Reader, energy: seq<Row>): seq<Row>
  {
    Filter(energy, InLatestOf(rd, LatestYear(rd, energy)))
  }

  /** A row's year is the latest one exactly when it is numeric and no row
      has a later one. */
  lemma IsLatestYear(rd: Reader, energy: seq<Row>, d: Row)
    requires d in energy
    ensures InLatest(rd, LatestYear(rd, energy), d) <==>
      YearOf(rd, d).Finite? &&
      forall i :: 0 <= i < |energy| && YearOf(rd, energy[i]).Finite? ==> YearOf(rd, energy[i]).r <= YearOf(rd, d).r
  {
    var latest := LatestYear(rd, energy);
    var k :| 0 <= k < |energy| && energy[k] == d;
    if YearOf(rd, d).Finite? &&
      forall i :: 0 <= i < |energy| && YearOf(rd, energy[i]).Finite? ==> YearOf(rd, energy[i]).r <= YearOf(rd, d).r
    {
      assert latest.Some?;
      var j :| 0 <= j < |energy| && YearOf(rd, energy[j]) == Finite(latest.value);
      assert YearOf(rd, energy[k]).r <= latest.value;
    }
  }

  /** A row is kept exactly when its year is numeric and no row has a later one. */
  lemma LatestRows(rd: Reader, energy: seq<Row>, d: Row)
    ensures d in LatestData(rd, energy) <==>
      d in energy && YearOf(rd, d).Finite? &&
      forall i :: 0 <= i < |energy| && YearOf(rd, energy[i]).Finite? ==> YearOf(rd, energy[i]).r <= YearOf(rd, d).r
  {
    var keep := InLatestOf(rd, LatestYear(rd, energy));
    assert d in LatestData(rd, energy) <==> d in energy && keep(d);
    if d in energy {
      IsLatestYear(rd, energy, d);
    }
  }

  /** A row of `latestData` after the `forEach` gives it `energy` and `year`. */
  datatype EnergyRecord = EnergyRecord(entity: Option<string>, code: Option<string>, energy: Num, year: Num)

  function Annotated(rd: Reader, d: Row): EnergyRecord
  {
    EnergyRecord(Field(d, "Entity"), Field(d, "Code"), PlusCell(rd, Field(d, EnergyColumn)), YearOf(rd, d))
  }

  /** The `forEach` that sets `d.energy` and `d.year` on every kept row. */
  method AnnotateRows(rd: Reader, latest: seq<Row>) returns (recs: seq<EnergyRecord>)
    ensures |recs| == |latest|
    ensures forall i :: 0 <= i < |latest| ==> recs[i] == Annotated(rd, latest[i])
  {
    recs := [];
    for i := 0 to |latest|
      invariant |recs| == i
      invariant forall k :: 0 <= k < i ==> recs[k] == Annotated(rd, latest[k])
    {
      recs := recs + [Annotated(rd, latest[i])];
    }
  }

  /** `recs` are the records `AnnotateRows` makes of `latestData`. */
  predicate AnnotatesLatest(rd: Reader, energy: seq<Row>, recs: seq<EnergyRecord>)
  {
    var latest := LatestData(rd, energy);
    |recs| == |latest| && forall i :: 0 <= i < |latest| ==> recs[i] == Annotated(rd, latest[i])
  }

  /** A record's year, when it is a number. */
  function RecordYear(e: EnergyRecord): Option<real>
  {
    FiniteReal(e.year)
  }

  /** The year printed in the footer, `d3.max` over the records' years, is
      the latest year whenever there is a record. */
  lemma FooterYear(rd: Reader, energy: seq<Row>, recs: seq<EnergyRecord>)
    requires AnnotatesLatest(rd, energy, recs)
    ensures recs != [] ==>
      LatestYear(rd, energy).Some? &&
      MaxOf(MapSomes(recs, RecordYear)) == LatestYear(rd, energy)
  {
    var y := LatestYear(rd, energy);
    var ys := MapSomes(recs, RecordYear);
    if recs != [] {
      RecordOfLatest(rd, energy, recs, 0);
      assert RecordYear(recs[0]) == Some(y.value);
      assert y.value in ys;
      forall x | x in ys ensures x == y.value {
        var j :| 0 <= j < |recs| && RecordYear(recs[j]) == Some(x);
        RecordOfLatest(rd, energy, recs, j);
      }
      var m := MaxOf(ys);
      assert m.value in ys;
    }
  }

  /** Every record carries the latest year. */
  lemma RecordOfLatest(rd: Reader, energy: seq<Row>, recs: seq<EnergyRecord>, j: nat)
    requires AnnotatesLatest(rd, energy, recs)
    requires j < |recs|
    ensures LatestYear(rd, energy).Some? && recs[j].year == Finite(LatestYear(rd, energy).value)
  {
    var latest := LatestData(rd, energy);
    assert InLatestOf(rd, LatestYear(rd, energy))(latest[j]);
  }

  /** The alias table from data names and codes to the names of the map. */
  const NameMapping: map<string, string> := map[
    "United States" := "United States of America",
    "United States of America" := "United States of America",
    "USA" := "United States of America",
    "Russia" := "Russian Federation",
    "Russian Federation" := "Russian Federation",
    "RUS" := "Russian Federation",
    "South Korea" := "Republic of Korea",
    "Korea, Rep." := "Republic of Korea",
    "KOR" := "Republic of Korea",
    "Iran" := "Iran (Islamic Republic of)",
    "Iran, Islamic Rep." := "Iran (Islamic Republic of)",
    "IRN" := "Iran (Islamic Republic of)",
    "Venezuela" := "Venezuela (Bolivarian Republic of)",
    "VEN" := "Venezuela (Bolivarian Republic of)",
    "Syria" := "Syrian Arab Republic",
    "SYR" := "Syrian Arab Republic",
    "Moldova" := "Republic of Moldova",
    "MDA" := "Republic of Moldova",
    "Laos" := "Lao People's Democratic Republic",
    "LAO" := "Lao People's Democratic Republic",
    "North Korea" := "Democratic People's Republic of Korea",
    "PRK" := "Democratic People's Republic of Korea",
    "Congo, Dem. Rep." := "Democratic Republic of the Congo",
    "COD" := "Democratic Republic of the Congo",
    "Congo, Rep." := "Republic of the Congo",
    "COG" := "Republic of the Congo",
    "Egypt" := "Egypt, Arab Rep.",
    "EGY" := "Egypt, Arab Rep.",
    "Tanzania" := "United Republic of Tanzania",
    "TZA" := "United Republic of Tanzania"
  ]

  /** The names the table maps to, each listed once. */
  const Targets: seq<string> := [
    "United States of America", "Russian Federation", "Republic of Korea",
    "Iran (Islamic Republic of)", "Venezuela (Bolivarian Republic of)", "Syrian Arab Republic",
    "Republic of Moldova", "Lao People's Democratic Republic", "Democratic People's Republic of Korea",
    "Democratic Republic of the Congo", "Republic of the Congo", "Egypt, Arab Rep.",
    "United Republic of Tanzania"
  ]

  /** A target that is also a key maps to itself. */
  predicate Fixed(t: string)
  {
    t !in NameMapping || NameMapping[t] == t
  }

  lemma TargetsListed(k: string)
    requires k in NameMapping
    ensures NameMapping[k] in Targets
  {
  }

  lemma TargetsFixedFirst()
    ensures forall i :: 0 <= i < 4 ==> Fixed(Targets[i])
  {
  }

  lemma TargetsFixedMiddle()
    ensures forall i :: 4 <= i < 8 ==> Fixed(Targets[i])
  {
  }

  lemma TargetsFixedLast()
    ensures forall i :: 8 <= i < |Targets| ==> Fixed(Targets[i])
  {
  }

  /** Mapping a name twice changes nothing: every target is its own image or
      no key at all. */
  lemma NameMappingIdempotent(k: string)
    requires k in NameMapping
    ensures NameMapping[k] in NameMapping ==> NameMapping[NameMapping[k]] == NameMapping[k]
  {
    TargetsListed(k);
    TargetsFixedFirst();
    TargetsFixedMiddle();
    TargetsFixedLast();
    var i :| 0 <= i < |Targets| && Targets[i] == NameMapping[k];
    assert Fixed(Targets[i]);
  }

  /** `nameMapping[d.Entity] || d.Entity`, as the key it becomes: the table
      holds no empty name, so only a missing entry falls back. */
  function MappedName(entity: Option<string>): (k: string)
    ensures Str(entity) in NameMapping ==> k == NameMapping[Str(entity)]
    ensures Str(entity) !in NameMapping ==> k == Str(entity)
  {
    if Str(entity) in NameMapping then NameMapping[Str(entity)] else Str(entity)
  }

  /** A record named by its mapped name is filed under the same key. */
  lemma MappedNameStable(entity: Option<string>)
    ensures MappedName(Some(MappedName(entity))) == MappedName(entity)
  {
    if Str(entity) in NameMapping {
      NameMappingIdempotent(Str(entity));
    }
  }

  function NameKey(e: EnergyRecord): string
  {
    MappedName(e.entity)
  }

  function CodeKey(e: EnergyRecord): string
  {
    Str(e.code)
  }

  function EnergyOf(e: EnergyRecord): Num
  {
    e.energy
  }

  /** `energyByCountry` after the given records, each writing its energy
      under its mapped name and then under its code. */
  function EnergyIndex(recs: seq<EnergyRecord>): map<string, Num>
  {
    IndexBoth(recs, NameKey, CodeKey, EnergyOf)
  }

  /** The `forEach` that fills `energyByCountry`. */
  method IndexEnergy(recs: seq<EnergyRecord>) returns (energyByCountry: map<string, Num>)
    ensures energyByCountry == EnergyIndex(recs)
  {
    energyByCountry := map[];
    for i := 0 to |recs|
      invariant energyByCountry == EnergyIndex(recs[..i])
    {
      var d := recs[i];
      var mappedName := MappedName(d.entity);
      energyByCountry := energyByCountry[mappedName := d.energy];
      energyByCountry := energyByCountry[Str(d.code) := d.energy];
      assert recs[..i + 1][..i] == recs[..i];
    }
    assert recs[..|recs|] == recs;
  }

  /** A key holds a value exactly when some record's mapped name or code is
      that key, and the value is the energy of the last such record. */
  lemma EnergyLookup(recs: seq<EnergyRecord>, k: string)
    ensures k in EnergyIndex(recs) <==>
      exists i :: 0 <= i < |recs| && (MappedName(recs[i].entity) == k || Str(recs[i].code) == k)
    ensures k in EnergyIndex(recs) ==>
      exists i :: 0 <= i < |recs| && (MappedName(recs[i].entity) == k || Str(recs[i].code) == k) &&
        EnergyIndex(recs)[k] == recs[i].energy &&
        forall j :: i < j < |recs| ==> MappedName(recs[j].entity) != k && Str(recs[j].code) != k
  {
    IndexBothLookup(recs, NameKey, CodeKey, EnergyOf, k);
  }

  /** The fill of a country without a usable value. */
  const NoDataFill := "#d9d9d9"

  datatype LegendEntry = LegendEntry(color: string, caption: string)

  /** `legendData`, lightest band first. */
  const Legend: seq<LegendEntry> := [
    LegendEntry("#BCAAA4", "< 5.000"),
    LegendEntry("#A1887F", "5.000 - 10.000"),
    LegendEntry("#8D6E63", "10.000 - 20.000"),
    LegendEntry("#795548", "20.000 - 50.000"),
    LegendEntry("#5D4037", "> 50.000")
  ]

  /** The band limits; each band is open below and closed above. */
  const Limits: seq<real> := [5000.0, 10000.0, 20000.0, 50000.0]

  predicate InBand(x: real, i: int)
    requires 0 <= i < 5
  {
    (i == 0 || Limits[i - 1] < x) && (i == 4 || x <= Limits[i])
  }

  /** `energyByCountry[d.properties.name]` is truthy. */
  predicate Known(v: Option<Num>)
  {
    v.Some? && v.value.Truthy()
  }

  /** The fill of a scaled country: grey without a truthy value, else the
      legend colour of the band holding the value. */
  function Fill(v: Option<Num>): (c: string)
    ensures c == NoDataFill <==> !Known(v)
    ensures Known(v) ==> exists i :: 0 <= i < 5 && InBand(v.value.r, i) && c == Legend[i].color
  {
    if !Known(v) then NoDataFill
    else
      var x := v.value.r;
      if x > 50000.0 then assert InBand(x, 4); "#5D4037"
      else if x > 20000.0 then assert InBand(x, 3); "#795548"
      else if x > 10000.0 then assert InBand(x, 2); "#8D6E63"
      else if x > 5000.0 then assert InBand(x, 1); "#A1887F"
      else assert InBand(x, 0); "#BCAAA4"
  }

  /** The bands do not overlap, so the fill names one band; no band is grey. */
  lemma BandsDisjoint(x: real, i: int, j: int)
    requires 0 <= i < 5 && 0 <= j < 5 && InBand(x, i) && InBand(x, j)
    ensures i == j
    ensures Legend[i].color != NoDataFill
  {
  }

  /** A larger value is never drawn in a lighter band. */
  lemma FillMonotone(x: real, y: real, i: int, j: int)
    requires 0 <= i < 5 && 0 <= j < 5 && InBand(x, i) && InBand(y, j) && x <= y
    ensures i <= j
  {
  }

  /** The value fed to the size scale: the country's value, 1000 when it has
      none that is truthy, so it is never 0. */
  function ScaleInput(v: Option<Num>): (x: real)
    ensures x != 0.0
    ensures Known(v) ==> x == v.value.r
    ensures Fill(v) == NoDataFill ==> x == 1000.0
  {
    if Known(v) then v.value.r else 1000.0
  }

  /** A position where `/\B(?=(\d{3})+(?!\d))/g` matches: inside a word, in
      front of a run of digits whose length is a positive multiple of 3. */
  predicate CommaAt(s: string, p: nat)
    requires p <= |s|
  {
    0 < p && IsWordChar(s[p - 1]) && DigitRun(s, p) > 0 && DigitRun(s, p) % 3 == 0
  }

  /** The length of the run of digits starting at `p`. */
  function DigitRun(s: string, p: nat): (n: nat)
    requires p <= |s|
    ensures p + n <= |s|
    ensures forall i :: p <= i < p + n ==> IsDigit(s[i])
    ensures p + n == |s| || !IsDigit(s[p + n])
    decreases |s| - p
  {
    if p == |s| || !IsDigit(s[p]) then 0 else 1 + DigitRun(s, p + 1)
  }

  /** The replacement from position `p` on: a comma before every match. */
  function CommasFrom(s: string, p: nat): string
    requires p <= |s|
    decreases |s| - p
  {
    if p == |s| then "" else (if CommaAt(s, p) then "," else "") + [s[p]] + CommasFrom(s, p + 1)
  }

  predicate NotComma(c: char)
  {
    c != ','
  }

  /** The string with its commas removed. */
  function Uncomma(s: string): string
  {
    Filter(s, NotComma)
  }

  /** The replacement only inserts commas. */
  lemma {:induction false} CommasOnlyInsert(s: string, p: nat)
    requires p <= |s|
    ensures Uncomma(CommasFrom(s, p)) == Uncomma(s[p..])
    decreases |s| - p
  {
    if p < |s| {
      assert s[p..] == [s[p]] + s[p + 1..];
      CommasOnlyInsert(s, p + 1);
      var c := if CommaAt(s, p) then "," else "";
      var rest := CommasFrom(s, p + 1);
      assert CommasFrom(s, p) == c + ([s[p]] + rest);
      FilterAppend(c, [s[p]] + rest, NotComma);
      FilterAppend([s[p]], rest, NotComma);
      FilterAppend([s[p]], s[p + 1..], NotComma);
      calc {
        Uncomma(CommasFrom(s, p));
        Uncomma(c) + Uncomma([s[p]] + rest);
        { assert Uncomma(c) == []; }
        Uncomma([s[p]]) + Uncomma(rest);
        Uncomma([s[p]]) + Uncomma(s[p + 1..]);
        Uncomma(s[p..]);
      }
    }
  }

  /** `formatNumber(num)`, given `num.toString()` as `text`. */
  function FormatNumber(num: Num, text: string): (r: string)
    ensures !num.Truthy() ==> r == "N/A"
    ensures num.Truthy() ==> r == CommasFrom(text, 0) && Uncomma(r) == Uncomma(text)
    ensures num.Truthy() && AllDigits(text) ==> r == Grouped(text)
  {
    if !num.Truthy() then "N/A"
    else
      CommasOnlyInsert(text, 0);
      assert text[0..] == text;
      assert AllDigits(text) ==> CommasFrom(text, 0) == Grouped(text) by {
        if AllDigits(text) {
          CommasGroupThousands(text);
        }
      }
      CommasFrom(text, 0)
  }

  predicate AllDigits(s: string)
  {
    forall i :: 0 <= i < |s| ==> IsDigit(s[i])
  }

  /** Three-digit grouping from the right, the reference for whole numbers. */
  function Grouped(d: string): string
  {
    if |d| <= 3 then d else Grouped(d[..|d| - 3]) + "," + d[|d| - 3..]
  }

  lemma {:induction false} DigitRunAll(d: string, p: nat)
    requires AllDigits(d) && p <= |d|
    ensures DigitRun(d, p) == |d| - p
    decreases |d| - p
  {
    if p < |d| {
      DigitRunAll(d, p + 1);
    }
  }

  /** In a string of digits the matches are the positions other than the
      first whose distance from the end is a multiple of 3. */
  lemma CommaAtDigits(d: string, p: nat)
    requires AllDigits(d) && p <= |d|
    ensures CommaAt(d, p) <==> 0 < p < |d| && (|d| - p) % 3 == 0
  {
    DigitRunAll(d, p);
  }

  /** The replacement on a string of digits, as the matches there fall: a
      comma before every position other than the first whose distance from
      the end is a multiple of 3. */
  function DigitCommas(d: string, p: nat): string
    requires p <= |d|
    decreases |d| - p
  {
    if p == |d| then "" else (if 0 < p && (|d| - p) % 3 == 0 then "," else "") + [d[p]] + DigitCommas(d, p + 1)
  }

  /** On a string of digits the replacement is `DigitCommas`. */
  lemma {:induction false} CommasOfDigits(d: string, p: nat)
    requires AllDigits(d) && p <= |d|
    ensures CommasFrom(d, p) == DigitCommas(d, p)
    decreases |d| - p
  {
    if p < |d| {
      CommaAtDigits(d, p);
      CommasOfDigits(d, p + 1);
    }
  }

  /** Without commas from `p` on, the rest is copied unchanged. */
  lemma {:induction false} DigitCommasShort(d: string, p: nat)
    requires p <= |d| && ((p == 0 && |d| <= 3) || |d| - p < 3)
    ensures DigitCommas(d, p) == d[p..]
    decreases |d| - p
  {
    if p < |d| {
      DigitCommasShort(d, p + 1);
      assert d[p..] == [d[p]] + d[p + 1..];
    }
  }

  lemma ModThree(x: int)
    ensures (x + 3) % 3 == x % 3
  {
  }

  lemma Regroup(a: string, x: string, y: string)
    ensures a + (x + y) == (a + x) + y
  {
  }

  /** Before the last three digits the commas fall as on the string without
      them. */
  lemma {:induction false} DigitCommasPrefix(d: string, p: nat)
    requires |d| > 3 && p <= |d| - 3
    ensures DigitCommas(d, p) == DigitCommas(d[..|d| - 3], p) + DigitCommas(d, |d| - 3)
    decreases |d| - p
  {
    var n := |d| - 3;
    var d' := d[..n];
    if p < n {
      DigitCommasPrefix(d, p + 1);
      ModThree(n - p);
      var c := if 0 < p && (|d| - p) % 3 == 0 then "," else "";
      assert d'[p] == d[p];
      var x, y := DigitCommas(d', p + 1), DigitCommas(d, n);
      assert DigitCommas(d, p) == c + [d[p]] + (x + y);
      Regroup(c + [d[p]], x, y);
    } else {
      assert DigitCommas(d', p) == "";
    }
  }

  /** The last three digits of a longer number get a comma in front. */
  lemma DigitCommasLastGroup(d: string)
    requires |d| > 3
    ensures DigitCommas(d, |d| - 3) == "," + d[|d| - 3..]
  {
    var n := |d| - 3;
    DigitCommasShort(d, n + 1);
    assert d[n..] == [d[n]] + d[n + 1..];
  }

  /** The commas of a string of digits are the grouping by thousands. */
  lemma {:induction false} DigitCommasGrouped(d: string)
    ensures DigitCommas(d, 0) == Grouped(d)
    decreases |d|
  {
    if |d| <= 3 {
      DigitCommasShort(d, 0);
    } else {
      var n := |d| - 3;
      DigitCommasPrefix(d, 0);
      DigitCommasGrouped(d[..n]);
      DigitCommasLastGroup(d);
    }
  }

  /** For a whole number written in digits the replacement is the standard
      grouping by thousands. */
  lemma CommasGroupThousands(d: string)
    requires AllDigits(d)
    ensures CommasFrom(d, 0) == Grouped(d)
  {
    CommasOfDigits(d, 0);
    DigitCommasGrouped(d);
  }

  /** The energy line of the tooltip. */
  function EnergyText(v: Option<Num>, text: string): (t: string)
    ensures !Known(v) ==> t == "Dati non disponibili"
    ensures Known(v) ==> t == FormatNumber(v.value, text) + " kWh/persona"
  {
    if Known(v) then FormatNumber(v.value, text) + " kWh/persona" else "Dati non disponibili"
  }
}
