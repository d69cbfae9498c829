/** The 3D globe of per-capita CO₂ emissions in 2020: the 2020 values summed
    per country name, and the lookup by a polygon's name, with a fallback to
    a fixed alias, that colours and labels the polygon. */
module Globe3D {
  import opened Collections
  import opened Js
  import opened Text

  const Year := 2020
  const Column := "Annual CO2 emissions (per capita)"

  /** This chart's `toNum`: a missing or empty cell is NaN; any other text is
      stripped to its numeric characters and read with unary `+`, so text
      with none of them reads as 0. */
  function ToNum(rd: Reader, v: Option<string>): (n: Num)
    ensures v == None || v == Some("") ==> n == NaN
    ensures v.Some? && v.value != "" && KeepNumeric(v.value) == [] ==> n == Finite(0.0)
    ensures v.Some? && KeepNumeric(v.value) != [] && !HasDigit(v.value) ==> n == NaN
  {
    match v
    case None => NaN
    case Some(s) => if s == "" then NaN else ToNumPlus(rd, v)
  }

  /** Only the empty cell tells this `toNum` apart from the one that applies
      unary `+` to any stripped cell, which reads it as 0. */
  lemma ToNumAgainstPlus(rd: Reader, v: Option<string>)
    ensures v != Some("") ==> ToNum(rd, v) == ToNumPlus(rd, v)
    ensures ToNum(rd, Some("")) == NaN && ToNumPlus(rd, Some("")) == Finite(0.0)
  {
    assert KeepNumeric("") == [];
  }

  predicate InYear(rd: Reader, d: Row)
  {
    PlusCell(rd, Field(d, "Year")) == Finite(Year as real)
  }

  /** `(d.Entity || "").trim()` */
  function EntityName(d: Row): string
  {
    if "Entity" in d then Trim(d["Entity"]) else ""
  }

  /** A row that adds to the sums: its trimmed name and its value. */
  datatype Reading = Reading(name: string, value: real)

  /** The three early returns of the `forEach`: a row of another year, one
      without a name and one whose value is not a finite number add nothing. */
  function ReadingOf(rd: Reader, d: Row): (r: Option<Reading>)
    ensures r.Some? <==> InYear(rd, d) && EntityName(d) != "" && ToNum(rd, Field(d, Column)).Finite?
    ensures r.Some? ==> r.value.name != "" && !IsSpace(r.value.name[0]) && !IsSpace(r.value.name[|r.value.name| - 1])
  {
    var name := EntityName(d);
    if !InYear(rd, d) || name == "" then None
    else
      var v := ToNum(rd, Field(d, Column));
      if v.Finite? then Some(Reading(name, v.r)) else None
  }

  function ReadingOfRow(rd: Reader): Row -> Option<Reading>
  {
    d => ReadingOf(rd, d)
  }

  function Readings(rd: Reader, rows: seq<Row>): seq<Reading>
  {
    MapSomes(rows, ReadingOfRow(rd))
  }

  /** `valueByCountry.get(name) || 0` */
  function Prev(m: map<string, real>, name: string): real
  {
    if name in m then m[name] else 0.0
  }

  /** A reading added to the sums. */
  function AddTo(m: map<string, real>, r: Reading): map<string, real>
  {
    m[r.name := Prev(m, r.name) + r.value]
  }

  /** `valueByCountry` after the given readings, each adding its value to
      its name's entry. */
  function Totals(rs: seq<Reading>): map<string, real>
  {
    if rs == [] then map[]
    else
      AddTo(Totals(rs[..|rs| - 1]), rs[|rs| - 1])
  }

  /** A reading's value if it is of `name`, else 0. */
  function ValueFor(name: string): Reading -> real
  {
    (r: Reading) => if r.name == name then r.value else 0.0
  }

  /** A name has an entry exactly when some reading carries it, and the entry
      is the sum of the values of all readings of that name. */
  lemma {:induction false} TotalsPerName(rs: seq<Reading>, name: string)
    ensures name in Totals(rs) <==> exists i :: 0 <= i < |rs| && rs[i].name == name
    ensures Prev(Totals(rs), name) == SumBy(rs, ValueFor(name))
    decreases |rs|
  {
    if rs != [] {
      var n := |rs| - 1;
      var init := rs[..n];
      TotalsPerName(init, name);
      if exists i :: 0 <= i < |rs| && rs[i].name == name {
        var i :| 0 <= i < |rs| && rs[i].name == name;
        if i < n { assert init[i] == rs[i]; }
      }
      if exists i :: 0 <= i < n && init[i].name == name {
        var i :| 0 <= i < n && init[i].name == name;
        assert rs[i] == init[i];
      }
    }
  }

  /** `valueByCountry` after the `forEach` has seen the given rows. */
  function SumsOf(rd: Reader, rows: seq<Row>): map<string, real>
  {
    if rows == [] then map[]
    else
      var m := SumsOf(rd, rows[..|rows| - 1]);
      var r := ReadingOf(rd, rows[|rows| - 1]);
      if r.Some? then AddTo(m, r.value) else m
  }

  /** The last row adds its reading, if it has one, after those of the
      rows before it. */
  lemma ReadingsLast(rd: Reader, rows: seq<Row>)
    requires rows != []
    ensures var rs, rs0, o := Readings(rd, rows), Readings(rd, rows[..|rows| - 1]), ReadingOf(rd, rows[|rows| - 1]);
      (o.Some? ==> rs != [] && rs[..|rs| - 1] == rs0 && rs[|rs| - 1] == o.value) &&
      (o.None? ==> rs == rs0)
  {
    var rs, rs0 := Readings(rd, rows), Readings(rd, rows[..|rows| - 1]);
    var o := ReadingOf(rd, rows[|rows| - 1]);
    assert ReadingOfRow(rd)(rows[|rows| - 1]) == o;
    MapSomesLast(rows, ReadingOfRow(rd));
    if o.Some? {
      assert rs == rs0 + [o.value];
    }
  }

  /** Going row by row gives the sums of the readings the rows yield. */
  lemma {:induction false} SumsOfReadings(rd: Reader, rows: seq<Row>)
    ensures SumsOf(rd, rows) == Totals(Readings(rd, rows))
    decreases |rows|
  {
    if rows != [] {
      SumsOfReadings(rd, rows[..|rows| - 1]);
      ReadingsLast(rd, rows);
    }
  }

  /** The body of the `forEach` for a row that adds to the sums: read the
      previous sum with `|| 0` and write it back increased. */
  method AddReading(valueByCountry: map<string, real>, r: Reading) returns (m: map<string, real>)
    ensures m == AddTo(valueByCountry, r)
  {
    var prev := if r.name in valueByCountry && valueByCountry[r.name] != 0.0 then valueByCountry[r.name] else 0.0;
    m := valueByCountry[r.name := prev + r.value];
  }

  /** The `filter` and `forEach` that fill `valueByCountry`. */
  method SumByName(rd: Reader, rows: seq<Row>) returns (valueByCountry: map<string, real>)
    ensures valueByCountry == Totals(Readings(rd, rows))
  {
    valueByCountry := map[];
    for i := 0 to |rows|
      invariant valueByCountry == SumsOf(rd, rows[..i])
    {
      var r := ReadingOf(rd, rows[i]);
      if r.Some? {
        valueByCountry := AddReading(valueByCountry, r.value);
      }
      assert rows[..i + 1][..i] == rows[..i];
    }
    assert rows[..|rows|] == rows;
    SumsOfReadings(rd, rows);
  }

  /** `NAME_FIX`: the globe's name for some countries the table names
      otherwise. */
  const NameFix: map<string, string> := map[
    "United States" := "United States of America",
    "Democratic Republic of Congo" := "Democratic Republic of the Congo",
    "Congo" := "Republic of the Congo",
    "Czechia" := "Czech Republic",
    "Myanmar" := "Burma"
  ]

  /** `valueByCountry.get(geoName) || (altName ? valueByCountry.get(altName) : undefined)`,
      with `undefined` read as NaN: the polygon's own name wins when its sum
      is a non-zero number, and the alias is tried otherwise. */
  function Lookup(m: map<string, real>, geoName: Option<string>): (v: Num)
    ensures geoName.Some? && geoName.value in m && m[geoName.value] != 0.0 ==> v == Finite(m[geoName.value])
    ensures v.Finite? <==>
      geoName.Some? && ((geoName.value in m && m[geoName.value] != 0.0) ||
                        (geoName.value in NameFix && NameFix[geoName.value] in m))
    ensures v.Finite? && !(geoName.value in m && m[geoName.value] != 0.0) ==>
      v == Finite(m[NameFix[geoName.value]])
  {
    match geoName
    case None => NaN
    case Some(g) =>
      var own := if g in m then Finite(m[g]) else NaN;
      if own.Truthy() then own
      else if g in NameFix then (if NameFix[g] in m then Finite(m[NameFix[g]]) else NaN)
      else NaN
  }

  /** A country whose 2020 values add up to 0 and that has no alias reads as
      having no data: `||` takes the 0 for a missing value. */
  lemma ZeroReadsAsMissing(m: map<string, real>, g: string)
    requires g in m && m[g] == 0.0 && g !in NameFix
    ensures !Lookup(m, Some(g)).IsFinite()
  {
  }

  const NoDataCap := "rgba(220,220,220,0.9)"

  /** The polygon's cap colour, given the sequential colour scale. */
  function CapColor(m: map<string, real>, geoName: Option<string>, color: real -> string): (c: string)
    ensures !Lookup(m, geoName).IsFinite() ==> c == NoDataCap
    ensures Lookup(m, geoName).IsFinite() ==> c == color(Lookup(m, geoName).r)
  {
    var v := Lookup(m, geoName);
    if !v.IsFinite() then NoDataCap else color(v.r)
  }

  const Unit := " tCO₂ per person"

  /** The value part of the polygon's label, given `toFixed(2)`. */
  function ValueText(m: map<string, real>, geoName: Option<string>, fixed2: real -> string): (t: string)
    ensures t == "No data" <==> !Lookup(m, geoName).IsFinite()
    ensures Lookup(m, geoName).IsFinite() ==> t == fixed2(Lookup(m, geoName).r) + Unit
  {
    var v := Lookup(m, geoName);
    if v.IsFinite() then
      var t := fixed2(v.r) + Unit;
      assert |t| > |"No data"|;
      t
    else "No data"
  }

  /** The cap and the label agree: a grey cap goes with "No data", and any
      other label with the scale's colour of the value it shows. */
  lemma CapMatchesLabel(m: map<string, real>, geoName: Option<string>, color: real -> string, fixed2: real -> string)
    ensures ValueText(m, geoName, fixed2) == "No data" ==> CapColor(m, geoName, color) == NoDataCap
    ensures ValueText(m, geoName, fixed2) != "No data" ==>
      ValueText(m, geoName, fixed2) == fixed2(Lookup(m, geoName).r) + Unit &&
      CapColor(m, geoName, color) == color(Lookup(m, geoName).r)
  {
  }

  /** A polygon whose own name has a non-zero sum shows the sum of the values
      of all 2020 rows bearing that name. */
  lemma PolygonShowsSum(rd: Reader, rows: seq<Row>, g: string)
    requires var m := Totals(Readings(rd, rows)); g in m && m[g] != 0.0
    ensures Lookup(Totals(Readings(rd, rows)), Some(g)) == Finite(SumBy(Readings(rd, rows), ValueFor(g)))
  {
    TotalsPerName(Readings(rd, rows), g);
  }
}
