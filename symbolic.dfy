/** The symbolic map of Europe: two triangles per country, one for the fossil
    and one for the clean share of its 2020 electricity, scaled against the
    largest share of any country. */
module SymbolicMap {
  import opened Collections
  import opened Js
  import opened ElectricityMix

  /** The keys of `SOURCES`. */
  datatype Source = Fossil | Clean

  const Sources: seq<Source> := [Fossil, Clean]

  function Label(s: Source): string
  {
    match s
    case Fossil => "Coal + oil + gas"
    case Clean => "Other sources"
  }

  /** The ordinal colour scale over the two keys. */
  function Color(s: Source): string
  {
    match s
    case Fossil => "rgb(20, 71, 108)"
    case Clean => "rgb(44, 160, 44)"
  }

  /** `d[s.key]` */
  function ShareIn(m: Mix, s: Source): real
  {
    match s
    case Fossil => m.fossil
    case Clean => m.clean
  }

  /** `allValues`: both shares of every element, in order. */
  function AllValues(data: seq<Mix>): (vs: seq<real>)
    ensures |vs| == 2 * |data|
    ensures forall i :: 0 <= i < |data| ==> vs[2 * i] == data[i].fossil && vs[2 * i + 1] == data[i].clean
  {
    if data == [] then []
    else AllValues(data[..|data| - 1]) + [data[|data| - 1].fossil, data[|data| - 1].clean]
  }

  /** `maxVal`, the top of the height scale's domain: the largest share of
      any country, none without data. */
  function MaxVal(data: seq<Mix>): (m: Option<real>)
    ensures m.None? <==> data == []
    ensures m.Some? ==> exists i, s :: 0 <= i < |data| && s in Sources && ShareIn(data[i], s) == m.value
    ensures m.Some? ==> forall i, s :: 0 <= i < |data| && s in Sources ==> ShareIn(data[i], s) <= m.value
  {
    var vs := AllValues(data);
    var m := MaxOf(vs);
    if m.Some? then
      assert m.value in vs;
      var k :| 0 <= k < |vs| && vs[k] == m.value;
      assert vs[2 * (k / 2)] == data[k / 2].fossil && vs[2 * (k / 2) + 1] == data[k / 2].clean;
      var src := if k % 2 == 0 then Fossil else Clean;
      assert k == 2 * (k / 2) + k % 2;
      assert src in Sources && ShareIn(data[k / 2], src) == m.value;
      forall i, s | 0 <= i < |data| && s in Sources ensures ShareIn(data[i], s) <= m.value {
        assert vs[2 * i] <= m.value && vs[2 * i + 1] <= m.value;
      }
      m
    else m
  }

  /** A triangle's datum: the feature's name, the source, the share (NaN when
      the country has no data) and the position in the group. */
  datatype Triangle = Triangle(country: Option<string>, source: Source, value: Num, index: nat)

  /** The data bound to the triangles of the feature named `name`. */
  function Triangles(byCountry: map<Option<string>, Mix>, name: Option<string>): (ts: seq<Triangle>)
    ensures |ts| == |Sources|
    ensures forall i :: 0 <= i < |ts| ==> ts[i].country == name && ts[i].source == Sources[i] && ts[i].index == i
    ensures forall i :: 0 <= i < |ts| ==>
      ts[i].value == if name in byCountry then Finite(ShareIn(byCountry[name], Sources[i])) else NaN
  {
    seq(|Sources|, i requires 0 <= i < |Sources| =>
      Triangle(name, Sources[i], if name in byCountry then Finite(ShareIn(byCountry[name], Sources[i])) else NaN, i))
  }

  /** The `d` attribute is null for a non-finite value: no triangle is drawn. */
  predicate Drawn(t: Triangle)
  {
    t.value.Finite?
  }

  /** A country's triangles are drawn exactly when some 2020 row names it, and
      they show the shares of the last such row. */
  lemma TrianglesOfCountry(rd: Reader, rows: seq<Row>, name: Option<string>)
    ensures var ts := Triangles(ByCountry(Data(rd, rows)), name);
      (forall i :: 0 <= i < |ts| ==> (Drawn(ts[i]) <==> NamedInYear(rd, rows, name))) &&
      (Drawn(ts[0]) ==>
        exists k :: IsLastInYear(rd, rows, name, k) &&
          ts[0].value == Finite(MixOf(rd, rows[k]).fossil) && ts[1].value == Finite(MixOf(rd, rows[k]).clean))
  {
    var k := ByCountryOfRows(rd, rows, name);
    var m := ByCountry(Data(rd, rows));
    var ts := Triangles(m, name);
    if name in m {
      assert ts[0].value == Finite(m[name].fossil) && ts[1].value == Finite(m[name].clean);
      assert IsLastInYear(rd, rows, name, k) && m[name] == MixOf(rd, rows[k]);
    }
  }
}
