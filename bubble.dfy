/** The bubble map of Europe: one circle per country, its area growing with
    the clean share of the country's 2020 electricity. */
module BubbleMap {
  import opened Collections
  import opened Js
  import opened ElectricityMix

  /** `allClean` */
  function AllClean(data: seq<Mix>): (cs: seq<real>)
    ensures |cs| == |data|
    ensures forall i :: 0 <= i < |data| ==> cs[i] == data[i].clean
  {
    seq(|data|, i requires 0 <= i < |data| => data[i].clean)
  }

  /** `maxVal`, the top of the radius scale's domain: the largest clean share,
      none without data; the fossil shares play no part. */
  function MaxClean(data: seq<Mix>): (m: Option<real>)
    ensures m.None? <==> data == []
    ensures m.Some? ==> exists i :: 0 <= i < |data| && data[i].clean == m.value
    ensures m.Some? ==> forall i :: 0 <= i < |data| ==> data[i].clean <= m.value
  {
    var m := MaxOf(AllClean(data));
    if m.Some? then
      assert m.value in AllClean(data);
      m
    else m
  }

  /** Changing only fossil shares leaves the scale unchanged. */
  lemma MaxCleanIgnoresFossil(a: seq<Mix>, b: seq<Mix>)
    requires |a| == |b| && forall i :: 0 <= i < |a| ==> a[i].clean == b[i].clean
    ensures MaxClean(a) == MaxClean(b)
  {
    assert AllClean(a) == AllClean(b);
  }

  /** The radius of the circle of the feature named `name`, given the
      square-root scale: 0 for a country without data. */
  function Radius(byCountry: map<Option<string>, Mix>, name: Option<string>, radiusScale: real -> real): (r: real)
    ensures name !in byCountry ==> r == 0.0
    ensures name in byCountry ==> r == radiusScale(byCountry[name].clean)
  {
    var cleanVal := if name in byCountry then Finite(byCountry[name].clean) else NaN;
    if cleanVal.Finite? then radiusScale(cleanVal.r) else 0.0
  }

  /** A circle has a scaled radius exactly when some 2020 row names its
      country, and the radius is that of the last such row's clean share;
      otherwise it is 0. */
  lemma RadiusOfCountry(rd: Reader, rows: seq<Row>, name: Option<string>, radiusScale: real -> real)
    ensures var m := ByCountry(Data(rd, rows));
      (name in m <==> NamedInYear(rd, rows, name)) &&
      (!NamedInYear(rd, rows, name) ==> Radius(m, name, radiusScale) == 0.0) &&
      (NamedInYear(rd, rows, name) ==>
        exists k :: IsLastInYear(rd, rows, name, k) && Radius(m, name, radiusScale) == radiusScale(MixOf(rd, rows[k]).clean))
  {
    var k := ByCountryOfRows(rd, rows, name);
  }
}
