/** The choropleth map of Europe: per-capita primary energy use in 2020,
    each country's fill and tooltip looked up by its name, and the table from
    ISO 3166-1 alpha-3 to alpha-2 codes the rows are annotated with. */
module Choropleth {
  import opened Collections
  import opened Js
  import opened Text

  const Column := "Primary energy consumption per capita (kWh/person)"
  const Year := 2020

  /** The entries of `ISO3_TO_ISO2`, as written. */
  const IsoPairs: seq<(string, string)> :=
    [("ALB", "AL"), ("AND", "AD"), ("AUT", "AT"), ("BEL", "BE"), ("BGR", "BG")] +
    [("BIH", "BA"), ("BLR", "BY"), ("CHE", "CH"), ("CYP", "CY"), ("CZE", "CZ")] +
    [("DEU", "DE"), ("DNK", "DK"), ("ESP", "ES"), ("EST", "EE"), ("FIN", "FI")] +
    [("FRA", "FR"), ("GBR", "GB"), ("GRC", "GR"), ("HRV", "HR"), ("HUN", "HU")] +
    [("IRL", "IE"), ("ISL", "IS"), ("ITA", "IT"), ("KOS", "XK"), ("LIE", "LI")] +
    [("LTU", "LT"), ("LUX", "LU"), ("LVA", "LV"), ("MDA", "MD"), ("MKD", "MK")] +
    [("MLT", "MT"), ("MNE", "ME"), ("NLD", "NL"), ("NOR", "NO"), ("POL", "PL")] +
    [("PRT", "PT"), ("ROU", "RO"), ("RUS", "RU"), ("SMR", "SM"), ("SRB", "RS")] +
    [("SVK", "SK"), ("SVN", "SI"), ("SWE", "SE"), ("TUR", "TR"), ("UKR", "UA")] +
    [("VAT", "VA")]
  /** `ISO3_TO_ISO2`: an object literal, so a repeated key would keep its
      last value. */
  const Iso3ToIso2: map<string, string> := LastWins(IsoPairs)

  /** The three letters of a code as one number, in alphabetical order. */
  function Rank3(k: string): int
  {
    if |k| == 3 then (k[0] as int) * 65536 + (k[1] as int) * 256 + (k[2] as int) else 0
  }

  function KeyRank(p: (string, string)): int
  {
    Rank3(p.0)
  }

  lemma IsoKeysAscendingA()
    ensures forall i :: 0 < i < 12 ==> KeyRank(IsoPairs[i - 1]) < KeyRank(IsoPairs[i])
  {
  }

  lemma IsoKeysAscendingB()
    ensures forall i :: 12 <= i < 23 ==> KeyRank(IsoPairs[i - 1]) < KeyRank(IsoPairs[i])
  {
  }

  lemma IsoKeysAscendingC()
    ensures forall i :: 23 <= i < 35 ==> KeyRank(IsoPairs[i - 1]) < KeyRank(IsoPairs[i])
  {
  }

  lemma IsoKeysAscendingD()
    ensures forall i :: 35 <= i < |IsoPairs| ==> KeyRank(IsoPairs[i - 1]) < KeyRank(IsoPairs[i])
  {
  }

  /** The keys are listed in strictly alphabetical order, so none repeats. */
  lemma IsoKeysDistinct()
    ensures forall i, j :: 0 <= i < j < |IsoPairs| ==> IsoPairs[i].0 != IsoPairs[j].0
  {
    IsoKeysAscendingA();
    IsoKeysAscendingB();
    IsoKeysAscendingC();
    IsoKeysAscendingD();
    IncreasingKeys(IsoPairs, KeyRank);
  }

  /** The ISO 3166-1 alpha-3 code of an alpha-2 code of the table, and "" for
      any other text: the table read backwards, one letter at a time. */
  function Iso2ToIso3(c: string): string
  {
    if |c| != 2 then ""
    else
      match c[0]
      case 'A' => (match c[1] case 'L' => "ALB" case 'D' => "AND" case 'T' => "AUT" case _ => "")
      case 'B' => (match c[1] case 'E' => "BEL" case 'G' => "BGR" case 'A' => "BIH" case 'Y' => "BLR" case _ => "")
      case 'C' => (match c[1] case 'H' => "CHE" case 'Y' => "CYP" case 'Z' => "CZE" case _ => "")
      case 'D' => (match c[1] case 'E' => "DEU" case 'K' => "DNK" case _ => "")
      case 'E' => (match c[1] case 'S' => "ESP" case 'E' => "EST" case _ => "")
      case 'F' => (match c[1] case 'I' => "FIN" case 'R' => "FRA" case _ => "")
      case 'G' => (match c[1] case 'B' => "GBR" case 'R' => "GRC" case _ => "")
      case 'H' => (match c[1] case 'R' => "HRV" case 'U' => "HUN" case _ => "")
      case 'I' => (match c[1] case 'E' => "IRL" case 'S' => "ISL" case 'T' => "ITA" case _ => "")
      case 'L' => (match c[1] case 'I' => "LIE" case 'T' => "LTU" case 'U' => "LUX" case 'V' => "LVA" case _ => "")
      case 'M' => (match c[1] case 'D' => "MDA" case 'K' => "MKD" case 'T' => "MLT" case 'E' => "MNE" case _ => "")
      case 'N' => (match c[1] case 'L' => "NLD" case 'O' => "NOR" case _ => "")
      case 'P' => (match c[1] case 'L' => "POL" case 'T' => "PRT" case _ => "")
      case 'R' => (match c[1] case 'O' => "ROU" case 'U' => "RUS" case 'S' => "SRB" case _ => "")
      case 'S' => (match c[1] case 'M' => "SMR" case 'K' => "SVK" case 'I' => "SVN" case 'E' => "SWE" case _ => "")
      case 'T' => (match c[1] case 'R' => "TUR" case _ => "")
      case 'U' => (match c[1] case 'A' => "UKR" case _ => "")
      case 'V' => (match c[1] case 'A' => "VAT" case _ => "")
      case 'X' => (match c[1] case 'K' => "KOS" case _ => "")
      case _ => ""
  }

  lemma IsoInverseA()
    ensures forall i :: 0 <= i < 12 ==> Iso2ToIso3(IsoPairs[i].1) == IsoPairs[i].0
  {
  }

  lemma IsoInverseB()
    ensures forall i :: 12 <= i < 23 ==> Iso2ToIso3(IsoPairs[i].1) == IsoPairs[i].0
  {
  }

  lemma IsoInverseC()
    ensures forall i :: 23 <= i < 35 ==> Iso2ToIso3(IsoPairs[i].1) == IsoPairs[i].0
  {
  }

  lemma IsoInverseD()
    ensures forall i :: 35 <= i < |IsoPairs| ==> Iso2ToIso3(IsoPairs[i].1) == IsoPairs[i].0
  {
  }

  /** `ISO3_TO_ISO2` has 46 entries, and no two codes share an alpha-2 code. */
  lemma IsoTable(a: string, b: string)
    ensures |IsoPairs| == 46 && |Iso3ToIso2| == 46
    ensures a in Iso3ToIso2 && b in Iso3ToIso2 && a != b ==> Iso3ToIso2[a] != Iso3ToIso2[b]
  {
    IsoKeysDistinct();
    LastWinsSize(IsoPairs);
    if a in Iso3ToIso2 && b in Iso3ToIso2 && a != b {
      IsoInverseA();
      IsoInverseB();
      IsoInverseC();
      IsoInverseD();
      LastWinsLast(IsoPairs, a);
      LastWinsLast(IsoPairs, b);
      var i :| 0 <= i < |IsoPairs| && IsoPairs[i].0 == a && IsLastKey(IsoPairs, i) && Iso3ToIso2[a] == IsoPairs[i].1;
      var j :| 0 <= j < |IsoPairs| && IsoPairs[j].0 == b && IsLastKey(IsoPairs, j) && Iso3ToIso2[b] == IsoPairs[j].1;
      assert Iso2ToIso3(Iso3ToIso2[a]) == a && Iso2ToIso3(Iso3ToIso2[b]) == b;
    }
  }

  /** `ISO3_TO_ISO2[iso3]`, `None` standing for `undefined`. */
  function Iso2Of(iso3: string): (r: Option<string>)
    ensures r.Some? <==> iso3 in Iso3ToIso2
    ensures r.Some? ==> r.value == Iso3ToIso2[iso3] && Iso2ToIso3(r.value) == iso3
  {
    if iso3 in Iso3ToIso2 then
      LastWinsLast(IsoPairs, iso3);
      IsoInverseA();
      IsoInverseB();
      IsoInverseC();
      IsoInverseD();
      Some(Iso3ToIso2[iso3])
    else None
  }

  predicate InYear(rd: Reader, d: Row)
  {
    PlusCell(rd, Field(d, "Year")) == Finite(Year as real)
  }

  /** An element of `data`; the last filter leaves only numbers in `value`. */
  datatype Record = Record(country: Option<string>, iso3: string, iso2: Option<string>, value: real)

  /** The `map` step on a 2020 row that has a `Code`, kept by the last
      `filter` when `toNum` (unary `+` on the stripped cell, NaN for a
      missing one) gives a number. */
  function RecordOf(rd: Reader, d: Row): (r: Option<Record>)
    ensures r.Some? <==> "Code" in d && ToNumPlus(rd, Field(d, Column)).Finite?
    ensures r.Some? ==>
      r.value.country == Field(d, "Entity") && r.value.iso3 == Trim(d["Code"]) &&
      r.value.iso2 == Iso2Of(r.value.iso3) && Finite(r.value.value) == ToNumPlus(rd, Field(d, Column))
  {
    if "Code" in d then
      var iso3 := Trim(d["Code"]);
      var value := ToNumPlus(rd, Field(d, Column));
      if value.Finite? then Some(Record(Field(d, "Entity"), iso3, Iso2Of(iso3), value.r)) else None
    else None
  }

  function RecordOfRow(rd: Reader): Row -> Option<Record>
  {
    d => RecordOf(rd, d)
  }

  /** `data`: `None` when the chain throws, which `trim` makes it do as soon
      as a 2020 row lacks `Code`; otherwise the records of the 2020 rows
      with a numeric value. */
  function Data(rd: Reader, rows: seq<Row>): (r: Option<seq<Record>>)
    ensures r.None? <==> exists d :: d in rows && InYear(rd, d) && "Code" !in d
    ensures r.Some? ==> forall x :: x in r.value <==> exists d :: d in rows && InYear(rd, d) && RecordOf(rd, d) == Some(x)
    ensures r.Some? ==> r.value == MapSomes(rows, RecordIn(rd))
  {
    var keep := InYearOf(rd);
    var sel := Filter(rows, keep);
    assert forall d :: d in sel <==> d in rows && InYear(rd, d);
    if exists d :: d in sel && "Code" !in d then None
    else
      FilterMapSomes(rows, keep, RecordOfRow(rd));
      MapSomesOfFilter(rows, keep, RecordOfRow(rd));
      Some(MapSomes(sel, RecordOfRow(rd)))
  }

  /** The record of a 2020 row, in one step. */
  function RecordIn(rd: Reader): Row -> Option<Record>
  {
    KeptImage(InYearOf(rd), RecordOfRow(rd))
  }

  function InYearOf(rd: Reader): Row -> bool
  {
    d => InYear(rd, d)
  }

  /** The pairs `[d.country, d.value]` of `valueByCountry`. */
  function CountryPairs(data: seq<Record>): (ps: seq<(Option<string>, real)>)
    ensures |ps| == |data|
    ensures forall i :: 0 <= i < |data| ==> ps[i] == (data[i].country, data[i].value)
  {
    seq(|data|, i requires 0 <= i < |data| => (data[i].country, data[i].value))
  }

  /** `valueByCountry`, keyed by `Entity`; the last record of a country wins. */
  function ValueByCountry(data: seq<Record>): map<Option<string>, real>
  {
    LastWins(CountryPairs(data))
  }

  /** A name has a value exactly when some record names it, and the value is
      that of the last such record. */
  lemma ValueByCountryLast(data: seq<Record>, name: Option<string>)
    ensures name in ValueByCountry(data) <==> exists i :: 0 <= i < |data| && data[i].country == name
    ensures name in ValueByCountry(data) ==>
      exists i :: 0 <= i < |data| && data[i].country == name && ValueByCountry(data)[name] == data[i].value &&
        forall j :: i < j < |data| ==> data[j].country != name
  {
    var ps := CountryPairs(data);
    if exists i :: 0 <= i < |data| && data[i].country == name {
      var i :| 0 <= i < |data| && data[i].country == name;
      assert ps[i].0 == name;
    }
    if name in ValueByCountry(data) {
      LastWinsLast(ps, name);
      var i :| 0 <= i < |ps| && ps[i].0 == name && IsLastKey(ps, i) && LastWins(ps)[name] == ps[i].1;
      forall j | i < j < |data| ensures data[j].country != name {
        assert ps[j].0 != ps[i].0;
      }
    }
  }

  /** Row `k` is a 2020 row whose record names `name`, and no later 2020 row
      has a record naming `name`. */
  predicate IsLastRecord(rd: Reader, rows: seq<Row>, name: Option<string>, k: int)
  {
    0 <= k < |rows| && RecordIn(rd)(rows[k]).Some? && RecordIn(rd)(rows[k]).value.country == name &&
    forall j :: k < j < |rows| && RecordIn(rd)(rows[j]).Some? ==> RecordIn(rd)(rows[j]).value.country != name
  }

  /** Some 2020 row has a record naming `name`. */
  predicate HasRecord(rd: Reader, rows: seq<Row>, name: Option<string>)
  {
    exists j :: 0 <= j < |rows| && RecordIn(rd)(rows[j]).Some? && RecordIn(rd)(rows[j]).value.country == name
  }

  function Names(name: Option<string>): Record -> bool
  {
    (x: Record) => x.country == name
  }

  /** The last record naming `name` is that of the last 2020 row with a
      record naming `name`. */
  lemma LastRecordRow(rd: Reader, rows: seq<Row>, data: seq<Record>, name: Option<string>, i: int) returns (k: int)
    requires data == MapSomes(rows, RecordIn(rd))
    requires 0 <= i < |data| && data[i].country == name && forall j :: i < j < |data| ==> data[j].country != name
    ensures IsLastRecord(rd, rows, name, k) && RecordIn(rd)(rows[k]) == Some(data[i])
  {
    assert LastWhere(data, Names(name), i);
    k := MapSomesLastWhere(rows, RecordIn(rd), Names(name), i);
    assert forall j :: k < j < |rows| ==> !Hits(RecordIn(rd), Names(name))(rows[j]);
  }

  /** Some record names `name` exactly when some 2020 row has a record
      naming it. */
  lemma RecordsNaming(rd: Reader, rows: seq<Row>, data: seq<Record>, name: Option<string>)
    requires data == MapSomes(rows, RecordIn(rd))
    ensures (exists i :: 0 <= i < |data| && data[i].country == name) <==> HasRecord(rd, rows, name)
  {
    var f, q := RecordIn(rd), Names(name);
    MapSomesWhere(rows, f, q);
    assert (exists i :: 0 <= i < |data| && data[i].country == name) <==> (exists i :: 0 <= i < |data| && q(data[i]));
    assert HasRecord(rd, rows, name) <==> exists j :: 0 <= j < |rows| && f(rows[j]).Some? && q(f(rows[j]).value);
  }

  /** `valueByCountry` has a name exactly when some 2020 row with a numeric
      value names it, and then holds the value of the last such row. */
  lemma ValueOfRows(rd: Reader, rows: seq<Row>, name: Option<string>)
    requires Data(rd, rows).Some?
    ensures var m := ValueByCountry(Data(rd, rows).value);
      (name in m <==> HasRecord(rd, rows, name)) &&
      (name in m ==> exists k :: IsLastRecord(rd, rows, name, k) && m[name] == RecordIn(rd)(rows[k]).value.value)
  {
    var data := Data(rd, rows).value;
    ValueByCountryLast(data, name);
    RecordsNaming(rd, rows, data, name);
    if name in ValueByCountry(data) {
      var i :| 0 <= i < |data| && data[i].country == name && ValueByCountry(data)[name] == data[i].value &&
        forall j :: i < j < |data| ==> data[j].country != name;
      var k := LastRecordRow(rd, rows, data, name, i);
    }
  }

  const NoDataFill := "#eee"

  /** A country's fill, given the sequential colour scale; the stored values
      are all numbers, so only a missing name is left grey. */
  function Fill(m: map<Option<string>, real>, name: Option<string>, color: real -> string): (c: string)
    ensures name !in m ==> c == NoDataFill
    ensures name in m ==> c == color(m[name])
  {
    var v := if name in m then Finite(m[name]) else NaN;
    if v.IsFinite() then color(v.r) else NoDataFill
  }

  /** The tooltip's first line. */
  function Heading(name: Option<string>): string
  {
    "<strong>" + Str(name) + "</strong><br>"
  }

  /** The tooltip, given `toLocaleString`: the name, then the value with its
      unit or "No data". */
  function Tooltip(m: map<Option<string>, real>, name: Option<string>, locale: real -> string): (t: string)
    ensures |t| >= |Heading(name)| && t[..|Heading(name)|] == Heading(name)
    ensures name !in m ==> t == Heading(name) + "No data"
    ensures name in m ==> t == Heading(name) + locale(m[name]) + " kWh/person"
    ensures (|t| >= 7 && t[|t| - 7..] == "No data") <==> name !in m
  {
    var v := if name in m then Finite(m[name]) else NaN;
    var detail := if v.IsFinite() then locale(v.r) + " kWh/person" else "No data";
    var t := Heading(name) + detail;
    assert t[|t| - |detail|..] == detail;
    assert v.IsFinite() ==> detail[|detail| - 7..] == "/person";
    t
  }
}
