/** The world bubble map of per-capita CO₂ emissions: for every country the
    value of its latest year, and the circle and title of each country
    shape, looked up by its name. */
module WorldBubbles {
  import opened Collections
  import opened Js
  import opened Text

  const Column := "Annual CO₂ emissions (per capita)"

  /** This chart's `toNum`: `String(v)` first, so a missing cell becomes the
      text "undefined", then stripped and read with unary `+`. */
  function ToNum(rd: Reader, v: Option<string>): Num
  {
    Plus(rd, KeepNumeric(Str(v)))
  }

  /** Reading a missing cell as "undefined" still gives NaN: the strip leaves
      "ee", which holds no digit. So this `toNum` agrees everywhere with the
      one that returns NaN for a missing cell before stripping. */
  lemma ToNumAgreesWithPlus(rd: Reader, v: Option<string>)
    ensures ToNum(rd, v) == ToNumPlus(rd, v)
    ensures ToNum(rd, None) == NaN
  {
    var u := "undefined";
    var t := KeepNumeric(u);
    assert u[3] == 'e';
    KeepNumericMembers(u, 'e');
    var j :| 0 <= j < |t| && t[j] == 'e';
    assert !AllSpace(t) by {
      assert !IsSpace(t[j]);
    }
    assert !HasDigit(u) by {
      forall i | 0 <= i < |u| ensures !IsDigit(u[i]) {
        assert u[i] in "undefi";
      }
    }
    KeepNumericDigits(u);
  }

  /** `d.Entity`, the rollup's key. */
  function EntityOf(d: Row): Option<string>
  {
    Field(d, "Entity")
  }

  /** `+d.Year` */
  function YearOf(rd: Reader, d: Row): Num
  {
    PlusCell(rd, Field(d, "Year"))
  }

  /** Row `i` is of country `k`, its year is a number, no row of `k` has a
      later one and none before it has the same. */
  predicate IsLatestRow(rd: Reader, rows: seq<Row>, k: Option<string>, i: int)
    requires 0 <= i < |rows|
  {
    EntityOf(rows[i]) == k && YearOf(rd, rows[i]).Finite? &&
    (forall j :: 0 <= j < |rows| && EntityOf(rows[j]) == k && YearOf(rd, rows[j]).Finite? ==>
       YearOf(rd, rows[j]).r <= YearOf(rd, rows[i]).r) &&
    (forall j :: 0 <= j < i && EntityOf(rows[j]) == k ==> YearOf(rd, rows[j]) != YearOf(rd, rows[i]))
  }

  /** No row of country `k` has a numeric year. */
  predicate NoYear(rd: Reader, rows: seq<Row>, k: Option<string>)
  {
    forall i :: 0 <= i < |rows| && EntityOf(rows[i]) == k ==> !YearOf(rd, rows[i]).Finite?
  }

  /** The year of a row of country `k`, when it is a number. */
  function YearIn(rd: Reader, k: Option<string>): Row -> Option<real>
  {
    (d: Row) => if EntityOf(d) == k then FiniteReal(YearOf(rd, d)) else None
  }

  /** The years `d3.max` compares for the group of `k`: those that are
      numbers, in row order. */
  function YearsOf(rd: Reader, rows: seq<Row>, k: Option<string>): (ys: seq<real>)
    ensures forall y :: y in ys <==> exists i :: 0 <= i < |rows| && EntityOf(rows[i]) == k && YearOf(rd, rows[i]) == Finite(y)
  {
    MapSomes(rows, YearIn(rd, k))
  }

  /** `v.find(d => +d.Year === maxYear)` in the group of `k`: the first row
      of that country from `from` on with that year. */
  function FindYear(rd: Reader, rows: seq<Row>, k: Option<string>, y: real, from: nat): (r: Option<nat>)
    requires from <= |rows|
    ensures r.Some? ==> from <= r.value < |rows| && EntityOf(rows[r.value]) == k && YearOf(rd, rows[r.value]) == Finite(y)
    ensures r.Some? ==> forall j :: from <= j < r.value ==> !(EntityOf(rows[j]) == k && YearOf(rd, rows[j]) == Finite(y))
    ensures r.None? <==> forall j :: from <= j < |rows| ==> !(EntityOf(rows[j]) == k && YearOf(rd, rows[j]) == Finite(y))
    decreases |rows| - from
  {
    if from == |rows| then None
    else if EntityOf(rows[from]) == k && YearOf(rd, rows[from]) == Finite(y) then Some(from)
    else FindYear(rd, rows, k, y, from + 1)
  }

  /** The rollup's reducer for the group of `k`: the value of the first row
      with the group's largest year. `None` when no year of the group is a
      number: `d3.max` is then `undefined`, `find` finds nothing, and reading
      a column of `undefined` throws. */
  function Reduce(rd: Reader, rows: seq<Row>, k: Option<string>): (r: Option<Num>)
    ensures r.None? <==> NoYear(rd, rows, k)
    ensures r.Some? ==> exists i :: 0 <= i < |rows| && IsLatestRow(rd, rows, k, i) && r.value == ToNum(rd, Field(rows[i], Column))
  {
    var ys := YearsOf(rd, rows, k);
    match MaxOf(ys)
    case None =>
      None
    case Some(maxYear) =>
      assert maxYear in ys;
      var i :| 0 <= i < |rows| && EntityOf(rows[i]) == k && YearOf(rd, rows[i]) == Finite(maxYear);
      var found := FindYear(rd, rows, k, maxYear, 0);
      assert found.Some?;
      var e := found.value;
      forall j | 0 <= j < |rows| && EntityOf(rows[j]) == k && YearOf(rd, rows[j]).Finite?
        ensures YearOf(rd, rows[j]).r <= maxYear
      {
        assert YearOf(rd, rows[j]).r in ys;
      }
      assert IsLatestRow(rd, rows, k, e);
      Some(ToNum(rd, Field(rows[e], Column)))
  }

  /** `latest`: one entry per distinct `Entity`, or `None` when the rollup
      throws. */
  function Latest(rd: Reader, rows: seq<Row>): (r: Option<map<Option<string>, Num>>)
    ensures r.None? <==> exists k :: k in Keys(rows, EntityOf) && Reduce(rd, rows, k).None?
    ensures r.Some? ==> forall k :: k in r.value <==> k in Keys(rows, EntityOf)
    ensures r.Some? ==> forall k :: k in r.value ==> Reduce(rd, rows, k) == Some(r.value[k])
  {
    var ks := Keys(rows, EntityOf);
    if exists k :: k in ks && Reduce(rd, rows, k).None? then None
    else
      var m := map k | k in ks :: Reduce(rd, rows, k).value;
      assert forall k :: k in m ==> Reduce(rd, rows, k) == Some(m[k]);
      Some(m)
  }

  /** `latest` has an entry for exactly the names some row carries. */
  lemma LatestKeys(rd: Reader, rows: seq<Row>, k: Option<string>)
    requires Latest(rd, rows).Some?
    ensures k in Latest(rd, rows).value <==> exists i :: 0 <= i < |rows| && EntityOf(rows[i]) == k
  {
  }

  /** A country's entry is the value of the first of its rows that carries
      its latest year. */
  lemma LatestEntry(rd: Reader, rows: seq<Row>, k: Option<string>)
    requires Latest(rd, rows).Some? && k in Latest(rd, rows).value
    ensures exists i :: (0 <= i < |rows| && IsLatestRow(rd, rows, k, i) &&
      Latest(rd, rows).value[k] == ToNum(rd, Field(rows[i], Column)))
  {
  }

  /** The rollup throws exactly when some country has no numeric year. */
  lemma LatestThrows(rd: Reader, rows: seq<Row>)
    ensures Latest(rd, rows).None? <==>
      exists i :: 0 <= i < |rows| && NoYear(rd, rows, EntityOf(rows[i]))
  {
    var ks := Keys(rows, EntityOf);
    if Latest(rd, rows).None? {
      var k :| k in ks && Reduce(rd, rows, k).None?;
      var i :| 0 <= i < |rows| && EntityOf(rows[i]) == k;
    }
    if exists i :: 0 <= i < |rows| && NoYear(rd, rows, EntityOf(rows[i])) {
      var i :| 0 <= i < |rows| && NoYear(rd, rows, EntityOf(rows[i]));
      assert EntityOf(rows[i]) in ks;
      assert Reduce(rd, rows, EntityOf(rows[i])).None?;
    }
  }

  /** `latest.get(name)`, `None` standing for `undefined`. */
  function Get(latest: map<Option<string>, Num>, name: Option<string>): Option<Num>
  {
    if name in latest then Some(latest[name]) else None
  }

  /** `val ?`: `undefined`, 0 and NaN are falsy. */
  predicate HasValue(latest: map<Option<string>, Num>, name: Option<string>)
  {
    name in latest && latest[name].Truthy()
  }

  /** The circle's radius, given the square-root scale. */
  function Radius(latest: map<Option<string>, Num>, name: Option<string>, radius: real -> real): (r: real)
    ensures !HasValue(latest, name) ==> r == 0.0
    ensures HasValue(latest, name) ==> r == radius(latest[name].r)
  {
    var v := Get(latest, name);
    if v.Some? && v.value.Truthy() then radius(v.value.r) else 0.0
  }

  /** The circle's title, given `toFixed(3)`. */
  function Title(latest: map<Option<string>, Num>, name: Option<string>, fixed3: real -> string): (t: string)
    ensures !HasValue(latest, name) ==> t == Str(name) + ": no data"
    ensures HasValue(latest, name) ==> t == Str(name) + ": " + fixed3(latest[name].r)
  {
    var v := Get(latest, name);
    if v.Some? && v.value.Truthy() then Str(name) + ": " + fixed3(v.value.r) else Str(name) + ": no data"
  }

  /** A country whose latest value is 0 gets no circle and reads "no data",
      like one missing from the table. */
  lemma ZeroLooksMissing(latest: map<Option<string>, Num>, name: Option<string>, radius: real -> real, fixed3: real -> string)
    requires name in latest && latest[name] == Finite(0.0)
    ensures Radius(latest, name, radius) == Radius(map[], name, radius) == 0.0
    ensures Title(latest, name, fixed3) == Title(map[], name, fixed3)
  {
  }
}
