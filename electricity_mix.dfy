/** The data step the symbolic and the bubble map of Europe share: the 2020
    rows of the electricity table, each reduced to its fossil share (coal, oil
    and gas) and its clean share (the other six sources), and the lookup of
    those shares by country. */
module ElectricityMix {
  import opened Collections
  import opened Js
  import ElectricitySankey

  const Year := 2020

  /** `COLS.coal`, `COLS.oil` and `COLS.gas`, in the order they are summed. */
  const FossilColumns: seq<string> := [
    ElectricitySankey.SourceColumns[8], ElectricitySankey.SourceColumns[6], ElectricitySankey.SourceColumns[7]
  ]

  /** `COLS.other`, `bio`, `solar`, `wind`, `hydro` and `nuclear`. */
  const CleanColumns: seq<string> := ElectricitySankey.SourceColumns[..6]

  /** Each of the nine columns is summed into exactly one of the two shares. */
  lemma ColumnsPartition()
    ensures multiset(FossilColumns) + multiset(CleanColumns) == multiset(ElectricitySankey.SourceColumns)
  {
    var s := ElectricitySankey.SourceColumns;
    assert s == CleanColumns + [s[6], s[7], s[8]];
    assert multiset(FossilColumns) == multiset([s[6], s[7], s[8]]);
  }

  lemma SumOfThree<T>(a: T, b: T, c: T, f: T -> real)
    ensures SumBy([a, b, c], f) == f(a) + f(b) + f(c)
  {
    assert [a, b, c][..2] == [a, b];
    assert [a, b][..1] == [a];
    assert [a][..0] == [];
    assert SumBy([a], f) == f(a);
    assert SumBy([a, b], f) == f(a) + f(b);
  }

  /** `toNum(d[col])`, where `Number.isFinite(v) ? v : 0` is applied. */
  function CellValue(rd: Reader, d: Row, col: string): real
  {
    OrZero(ToNumPlus(rd, Field(d, col)))
  }

  /** `cols.map(...).reduce((a, b) => a + b, 0)` */
  function ShareOf(rd: Reader, d: Row, cols: seq<string>): real
  {
    SumBy(cols, col => CellValue(rd, d, col))
  }

  /** An element of `data`. */
  datatype Mix = Mix(country: Option<string>, fossil: real, clean: real)

  function MixOf(rd: Reader, d: Row): Mix
  {
    Mix(Field(d, "Entity"), ShareOf(rd, d, FossilColumns), ShareOf(rd, d, CleanColumns))
  }

  /** The two shares add up to the sum over all nine sources, each read as
      a number or 0. */
  lemma MixTotal(rd: Reader, d: Row)
    ensures MixOf(rd, d).fossil + MixOf(rd, d).clean == ShareOf(rd, d, ElectricitySankey.SourceColumns)
  {
    var s := ElectricitySankey.SourceColumns;
    var f := col => CellValue(rd, d, col);
    assert s == CleanColumns + [s[6], s[7], s[8]];
    SumByAppend(CleanColumns, [s[6], s[7], s[8]], f);
    SumOfThree(s[6], s[7], s[8], f);
    SumOfThree(s[8], s[6], s[7], f);
  }

  predicate InYear(rd: Reader, d: Row)
  {
    PlusCell(rd, Field(d, "Year")) == Finite(Year as real)
  }

  /** `data`: one element per 2020 row, in order. */
  function Data(rd: Reader, rows: seq<Row>): (data: seq<Mix>)
    ensures |data| <= |rows|
    ensures forall m :: m in data <==> exists d :: d in rows && InYear(rd, d) && m == MixOf(rd, d)
    ensures var sel := Filter(rows, InYearOf(rd));
      |data| == |sel| && forall i :: 0 <= i < |data| ==> data[i] == MixOf(rd, sel[i])
  {
    var sel := Filter(rows, InYearOf(rd));
    assert forall d :: d in sel <==> d in rows && InYear(rd, d);
    MixesOf(rd, sel)
  }

  function InYearOf(rd: Reader): Row -> bool
  {
    d => InYear(rd, d)
  }

  /** One element per row of `sel`, in order. */
  function MixesOf(rd: Reader, sel: seq<Row>): (data: seq<Mix>)
    ensures |data| == |sel|
    ensures forall i :: 0 <= i < |sel| ==> data[i] == MixOf(rd, sel[i])
    ensures forall m :: m in data <==> exists d :: d in sel && m == MixOf(rd, d)
  {
    var data := seq(|sel|, i requires 0 <= i < |sel| => MixOf(rd, sel[i]));
    assert forall m :: m in data ==> exists d :: d in sel && m == MixOf(rd, d);
    assert forall d :: d in sel ==> MixOf(rd, d) in data by {
      forall d | d in sel ensures MixOf(rd, d) in data {
        var i :| 0 <= i < |sel| && sel[i] == d;
        assert data[i] == MixOf(rd, d);
      }
    }
    data
  }

  function CountryPairs(data: seq<Mix>): (ps: seq<(Option<string>, Mix)>)
    ensures |ps| == |data|
    ensures forall i :: 0 <= i < |data| ==> ps[i] == (data[i].country, data[i])
  {
    seq(|data|, i requires 0 <= i < |data| => (data[i].country, data[i]))
  }

  /** `new Map(data.map(d => [d.country, d]))`; a row without `Entity` is
      filed under `undefined`. */
  function ByCountry(data: seq<Mix>): map<Option<string>, Mix>
  {
    LastWins(CountryPairs(data))
  }

  /** A country is in the map exactly when some element names it, and the map
      holds the last such element. */
  lemma ByCountryLast(data: seq<Mix>, c: Option<string>)
    ensures c in ByCountry(data) <==> exists i :: 0 <= i < |data| && data[i].country == c
    ensures c in ByCountry(data) ==>
      exists i :: 0 <= i < |data| && data[i].country == c && ByCountry(data)[c] == data[i] &&
        forall j :: i < j < |data| ==> data[j].country != c
  {
    var ps := CountryPairs(data);
    if exists i :: 0 <= i < |data| && data[i].country == c {
      var i :| 0 <= i < |data| && data[i].country == c;
      assert ps[i].0 == c;
    }
    if c in ByCountry(data) {
      LastWinsLast(ps, c);
      var i :| 0 <= i < |ps| && ps[i].0 == c && IsLastKey(ps, i) && LastWins(ps)[c] == ps[i].1;
      forall j | i < j < |data| ensures data[j].country != c {
        assert ps[j].0 != ps[i].0;
      }
    }
  }

  /** Row `k` is a 2020 row naming `c`, and no later 2020 row names `c`. */
  predicate IsLastInYear(rd: Reader, rows: seq<Row>, c: Option<string>, k: int)
  {
    0 <= k < |rows| && InYear(rd, rows[k]) && Field(rows[k], "Entity") == c &&
    forall j :: k < j < |rows| && InYear(rd, rows[j]) ==> Field(rows[j], "Entity") != c
  }

  /** Some 2020 row names `c`. */
  predicate NamedInYear(rd: Reader, rows: seq<Row>, c: Option<string>)
  {
    exists j :: 0 <= j < |rows| && InYear(rd, rows[j]) && Field(rows[j], "Entity") == c
  }

  function CountryIs(c: Option<string>): Row -> bool
  {
    d => Field(d, "Entity") == c
  }

  /** Some element of `data` names `c` exactly when some 2020 row does. */
  lemma DataNames(rd: Reader, rows: seq<Row>, c: Option<string>)
    ensures (exists i :: 0 <= i < |Data(rd, rows)| && Data(rd, rows)[i].country == c) <==> NamedInYear(rd, rows, c)
  {
    var data := Data(rd, rows);
    var sel := Filter(rows, InYearOf(rd));
    if NamedInYear(rd, rows, c) {
      var j :| 0 <= j < |rows| && InYear(rd, rows[j]) && Field(rows[j], "Entity") == c;
      assert rows[j] in sel;
      var i :| 0 <= i < |sel| && sel[i] == rows[j];
      assert data[i].country == c;
    }
    if exists i :: 0 <= i < |data| && data[i].country == c {
      var i :| 0 <= i < |data| && data[i].country == c;
      assert sel[i] in sel;
      var j :| 0 <= j < |rows| && rows[j] == sel[i];
    }
  }

  /** Element `i` names `c` and no later one does. */
  predicate LastNaming(data: seq<Mix>, c: Option<string>, i: int)
  {
    0 <= i < |data| && data[i].country == c && forall j :: i < j < |data| ==> data[j].country != c
  }

  /** The last element of `data` naming `c` is the split of the last 2020 row
      naming `c`. */
  lemma LastDataRow(rd: Reader, rows: seq<Row>, c: Option<string>, i: int) returns (k: int)
    requires LastNaming(Data(rd, rows), c, i)
    ensures IsLastInYear(rd, rows, c, k) && Data(rd, rows)[i] == MixOf(rd, rows[k])
  {
    var data := Data(rd, rows);
    var sel := Filter(rows, InYearOf(rd));
    var q := CountryIs(c);
    assert q(sel[i]);
    assert forall j :: i < j < |sel| ==> !q(sel[j]) by {
      forall j | i < j < |sel| ensures !q(sel[j]) {
        assert data[j].country == Field(sel[j], "Entity");
      }
    }
    assert LastWhere(sel, q, i);
    k := FilterLastWhere(rows, InYearOf(rd), q, i);
    assert forall j :: k < j < |rows| ==> !Both(InYearOf(rd), q)(rows[j]);
  }

  /** `byCountry` has a country exactly when some 2020 row names it, and then
      holds the split of the last 2020 row that does. */
  lemma ByCountryOfRows(rd: Reader, rows: seq<Row>, c: Option<string>) returns (k: int)
    ensures c in ByCountry(Data(rd, rows)) <==> NamedInYear(rd, rows, c)
    ensures c in ByCountry(Data(rd, rows)) ==> IsLastInYear(rd, rows, c, k) && ByCountry(Data(rd, rows))[c] == MixOf(rd, rows[k])
  {
    var data := Data(rd, rows);
    k := 0;
    ByCountryLast(data, c);
    DataNames(rd, rows, c);
    if c in ByCountry(data) {
      var i :| 0 <= i < |data| && data[i].country == c && ByCountry(data)[c] == data[i] &&
        forall j :: i < j < |data| ==> data[j].country != c;
      assert LastNaming(data, c, i);
      k := LastDataRow(rd, rows, c, i);
    }
  }
}
