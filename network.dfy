/** The European oil-export map: a position for every European country (the
    computed centroid of its shape, or a fixed location for four of them), the
    2015 export flows between positioned countries with per-country trade
    totals, the node list sorted by total, and the selected country. */
module OilNetwork {
  import opened Collections
  import opened Js

  const Year := 2015
  const TradeFlow := "Export"

  const EuroIso3: seq<string> := [
    "ALB", "AND", "AUT", "BEL", "BGR", "BIH", "BLR", "CHE", "CYP", "CZE",
    "DEU", "DNK", "ESP", "EST", "FIN", "FRA", "GBR", "GRC", "HRV", "HUN",
    "IRL", "ISL", "ITA", "KOS", "LIE", "LTU", "LUX", "LVA", "MDA", "MKD",
    "MLT", "MNE", "NLD", "NOR", "POL", "PRT", "ROU", "RUS", "SMR", "SRB",
    "SVK", "SVN", "SWE", "TUR", "UKR", "VAT"
  ]

  /** The keys of `MANUAL_LOCATIONS`, in order, and their longitude/latitude. */
  const ManualIsos: seq<string> := ["RUS", "FRA", "NOR", "MLT"]

  const ManualCoords: map<string, (real, real)> :=
    map["RUS" := (37.6, 55.7), "FRA" := (2.5, 46.5), "NOR" := (8.4, 60.5), "MLT" := (14.4, 35.9)]

  lemma ManualLocations()
    ensures forall iso :: iso in ManualCoords <==> iso in ManualIsos
    ensures forall iso :: iso in ManualIsos ==> iso in EuroIso3
  {
  }

  datatype Point = Point(x: real, y: real)

  /** A country of the world map: its ISO3 `id` and `properties.name`. */
  datatype Feature = Feature(id: string, name: Option<string>)

  /** The geometry the script borrows from d3: the projection of a
      longitude/latitude (null outside its domain) and the centroid of a
      feature's shape (NaN coordinates for an empty shape). */
  datatype Geo = Geo(project: (real, real) -> Option<Point>, centroid: Feature -> (Num, Num))

  predicate IsEuro(f: Feature)
  {
    f.id in EuroIso3
  }

  /** `c && !isNaN(c[0]) && !isNaN(c[1])` */
  predicate Usable(c: (Num, Num))
  {
    c.0.Finite? && c.1.Finite?
  }

  function Projected(geo: Geo, iso: string): Option<Point>
    requires iso in ManualCoords
  {
    geo.project(ManualCoords[iso].0, ManualCoords[iso].1)
  }

  /** `centroids` after the first `forEach` visits feature `d`. */
  function FirstPassStep(geo: Geo, t: Obj<Point>, d: Feature): Obj<Point>
  {
    if d.id in ManualCoords then
      var p := Projected(geo, d.id);
      if p.Some? then Put(t, d.id, p.value) else t
    else
      var c := geo.centroid(d);
      if Usable(c) then Put(t, d.id, Point(c.0.r, c.1.r)) else t
  }

  function FirstPass(geo: Geo, fs: seq<Feature>): Obj<Point>
  {
    if fs == [] then Obj([], map[]) else FirstPassStep(geo, FirstPass(geo, fs[..|fs| - 1]), fs[|fs| - 1])
  }

  /** `centroids` after the second `forEach` visits the manual location `iso`. */
  function SecondPassStep(geo: Geo, t: Obj<Point>, iso: string): Obj<Point>
    requires iso in ManualCoords
  {
    if iso !in t.entries && iso in EuroIso3 then
      var p := Projected(geo, iso);
      if p.Some? then Put(t, iso, p.value) else t
    else t
  }

  function SecondPass(geo: Geo, t: Obj<Point>, isos: seq<string>): Obj<Point>
    requires forall i :: 0 <= i < |isos| ==> isos[i] in ManualCoords
  {
    if isos == [] then t
    else SecondPassStep(geo, SecondPass(geo, t, isos[..|isos| - 1]), isos[|isos| - 1])
  }

  function NamePairs(fs: seq<Feature>): (ps: seq<(string, Option<string>)>)
    ensures |ps| == |fs|
    ensures forall i :: 0 <= i < |fs| ==> ps[i] == (fs[i].id, fs[i].name)
  {
    if fs == [] then [] else NamePairs(fs[..|fs| - 1]) + [(fs[|fs| - 1].id, fs[|fs| - 1].name)]
  }

  /** The two `forEach` passes over the European features and the manual
      locations, filling `centroids` and `countryNames`. */
  method BuildCentroids(geo: Geo, features: seq<Feature>)
    returns (centroids: Obj<Point>, countryNames: map<string, Option<string>>)
    ensures centroids == SecondPass(geo, FirstPass(geo, Filter(features, IsEuro)), ManualIsos)
    ensures countryNames == LastWins(NamePairs(Filter(features, IsEuro)))
  {
    var first;
    first, countryNames := VisitFeatures(geo, Filter(features, IsEuro));
    centroids := PlaceManual(geo, first);
  }

  /** A later feature's name replaces an earlier one's of the same code. */
  lemma NamePairsLast(fs: seq<Feature>)
    requires fs != []
    ensures var d := fs[|fs| - 1];
      LastWins(NamePairs(fs)) == LastWins(NamePairs(fs[..|fs| - 1]))[d.id := d.name]
  {
  }

  /** The first `forEach`, over the given features in order. */
  method VisitFeatures(geo: Geo, euro: seq<Feature>)
    returns (centroids: Obj<Point>, countryNames: map<string, Option<string>>)
    ensures centroids == FirstPass(geo, euro)
    ensures countryNames == LastWins(NamePairs(euro))
  {
    centroids := Obj([], map[]);
    countryNames := map[];
    for i := 0 to |euro|
      invariant centroids == FirstPass(geo, euro[..i])
      invariant countryNames == LastWins(NamePairs(euro[..i]))
    {
      var d := euro[i];
      assert euro[..i + 1][..i] == euro[..i];
      NamePairsLast(euro[..i + 1]);
      countryNames := countryNames[d.id := d.name];
      centroids := PlaceFeature(geo, centroids, d);
    }
    assert euro[..|euro|] == euro;
  }

  /** The body of the first `forEach` for the position of one feature: the
      projected fixed location of a manual country, the shape's centroid
      for any other. */
  method PlaceFeature(geo: Geo, centroids: Obj<Point>, d: Feature) returns (r: Obj<Point>)
    ensures r == FirstPassStep(geo, centroids, d)
  {
    r := centroids;
    if d.id in ManualCoords {
      var projected := Projected(geo, d.id);
      if projected.Some? {
        r := Put(r, d.id, projected.value);
      }
    } else {
      var c := geo.centroid(d);
      if Usable(c) {
        r := Put(r, d.id, Point(c.0.r, c.1.r));
      }
    }
  }

  /** The body of the second `forEach` for one manual country. */
  method PlaceOne(geo: Geo, t: Obj<Point>, iso: string) returns (t': Obj<Point>)
    requires iso in ManualCoords
    ensures t' == SecondPassStep(geo, t, iso)
  {
    t' := t;
    if iso !in t.entries && iso in EuroIso3 {
      var coords := Projected(geo, iso);
      if coords.Some? {
        t' := Put(t, iso, coords.value);
      }
    }
  }

  /** The second `forEach` over the given manual countries, in order. */
  method PlaceEach(geo: Geo, first: Obj<Point>, isos: seq<string>) returns (centroids: Obj<Point>)
    requires forall i :: 0 <= i < |isos| ==> isos[i] in ManualCoords
    ensures centroids == SecondPass(geo, first, isos)
  {
    centroids := first;
    for j := 0 to |isos|
      invariant centroids == SecondPass(geo, first, isos[..j])
    {
      centroids := PlaceOne(geo, centroids, isos[j]);
      assert isos[..j + 1][..j] == isos[..j];
    }
    assert isos[..|isos|] == isos;
  }

  /** The second `forEach`, over `MANUAL_LOCATIONS`: a European country the
      map left unplaced gets its fixed location when that projects. */
  method PlaceManual(geo: Geo, first: Obj<Point>) returns (centroids: Obj<Point>)
    ensures centroids == SecondPass(geo, first, ManualIsos)
  {
    ManualLocations();
    centroids := PlaceEach(geo, first, ManualIsos);
  }

  /** Each pass keeps the key list and the entries in step. */
  lemma {:induction false} FirstPassOk(geo: Geo, fs: seq<Feature>)
    ensures ObjOk(FirstPass(geo, fs))
    decreases |fs|
  {
    if fs != [] {
      FirstPassOk(geo, fs[..|fs| - 1]);
    }
  }

  /** After the first pass, a manual country is placed exactly when the map
      has its shape and its fixed location projects, and it sits there. */
  lemma {:induction false} FirstPassManual(geo: Geo, fs: seq<Feature>, iso: string)
    requires iso in ManualCoords
    ensures iso in FirstPass(geo, fs).entries <==>
      (exists j :: 0 <= j < |fs| && fs[j].id == iso) && Projected(geo, iso).Some?
    ensures iso in FirstPass(geo, fs).entries ==> FirstPass(geo, fs).entries[iso] == Projected(geo, iso).value
    decreases |fs|
  {
    if fs != [] {
      var n := |fs| - 1;
      FirstPassManual(geo, fs[..n], iso);
      if exists j :: 0 <= j < |fs| && fs[j].id == iso {
        var j :| 0 <= j < |fs| && fs[j].id == iso;
        if j < n { assert fs[..n][j].id == iso; }
      }
      if exists j :: 0 <= j < n && fs[..n][j].id == iso {
        var j :| 0 <= j < n && fs[..n][j].id == iso;
        assert fs[j].id == iso;
      }
    }
  }

  /** The feature whose centroid the first pass keeps for a country: the last
      one of that id with a usable centroid. */
  predicate LastUsable(geo: Geo, fs: seq<Feature>, j: int)
    requires 0 <= j < |fs|
  {
    Usable(geo.centroid(fs[j])) &&
    forall k :: j < k < |fs| && fs[k].id == fs[j].id ==> !Usable(geo.centroid(fs[k]))
  }

  /** After the first pass, any other country is placed exactly when one of its
      features has a usable centroid, and it sits at the last such centroid. */
  lemma {:induction false} FirstPassComputed(geo: Geo, fs: seq<Feature>, iso: string)
    requires iso !in ManualCoords
    ensures iso in FirstPass(geo, fs).entries <==>
      exists j :: 0 <= j < |fs| && fs[j].id == iso && Usable(geo.centroid(fs[j]))
    ensures iso in FirstPass(geo, fs).entries ==>
      exists j :: 0 <= j < |fs| && fs[j].id == iso && LastUsable(geo, fs, j) &&
        FirstPass(geo, fs).entries[iso] == Point(geo.centroid(fs[j]).0.r, geo.centroid(fs[j]).1.r)
    decreases |fs|
  {
    if fs != [] {
      var n := |fs| - 1;
      var init := fs[..n];
      FirstPassComputed(geo, init, iso);
      var t := FirstPass(geo, init);
      var c := geo.centroid(fs[n]);
      if fs[n].id == iso && Usable(c) {
        assert LastUsable(geo, fs, n);
      } else {
        assert FirstPass(geo, fs) == FirstPassStep(geo, t, fs[n]);
        assert iso in FirstPass(geo, fs).entries <==> iso in t.entries;
        assert iso in t.entries ==> FirstPass(geo, fs).entries[iso] == t.entries[iso];
        if exists j :: 0 <= j < |fs| && fs[j].id == iso && Usable(geo.centroid(fs[j])) {
          var j :| 0 <= j < |fs| && fs[j].id == iso && Usable(geo.centroid(fs[j]));
          assert j < n && init[j] == fs[j];
        }
        if iso in t.entries {
          var j :| 0 <= j < n && init[j].id == iso && LastUsable(geo, init, j) &&
            t.entries[iso] == Point(geo.centroid(init[j]).0.r, geo.centroid(init[j]).1.r);
          assert fs[j] == init[j];
          assert LastUsable(geo, fs, j) by {
            forall k | j < k < |fs| && fs[k].id == fs[j].id ensures !Usable(geo.centroid(fs[k])) {
              if k < n { assert init[k] == fs[k]; }
            }
          }
        }
      }
    }
  }

  /** How `iso` fares from `t` to `t'` when some visits may place it
      (`visited`): a placed country keeps its location; an unvisited one is
      placed afterwards exactly when it was before; a visited one is placed
      afterwards exactly when it was before or its location projects, and
      one placed by a visit sits at its projected location. */
  predicate Placement(geo: Geo, t: Obj<Point>, t': Obj<Point>, visited: bool, iso: string)
    requires visited ==> iso in ManualCoords
  {
    (iso in t.entries ==> iso in t'.entries && t'.entries[iso] == t.entries[iso]) &&
    (!visited ==> (iso in t'.entries <==> iso in t.entries)) &&
    (visited ==> (iso in t'.entries <==> iso in t.entries || Projected(geo, iso).Some?)) &&
    (visited && iso !in t.entries && Projected(geo, iso).Some? ==> t'.entries[iso] == Projected(geo, iso).value)
  }

  /** Two runs of visits in a row place `iso` as one run that visits it when
      either does. */
  lemma PlacementThen(geo: Geo, t: Obj<Point>, m: Obj<Point>, t': Obj<Point>, a: bool, b: bool, iso: string)
    requires (a || b) ==> iso in ManualCoords
    requires Placement(geo, t, m, a, iso) && Placement(geo, m, t', b, iso)
    ensures Placement(geo, t, t', a || b, iso)
  {
  }

  /** One visit of the second pass places `x` when it is not yet placed and
      its location projects, and changes nothing else. */
  lemma SecondPassStepEffect(geo: Geo, t: Obj<Point>, x: string, iso: string)
    requires x in ManualCoords && x in EuroIso3 && ObjOk(t)
    ensures ObjOk(SecondPassStep(geo, t, x))
    ensures Placement(geo, t, SecondPassStep(geo, t, x), iso == x, iso)
  {
  }

  /** The last visit of the second pass, after the run over the others. */
  lemma SecondPassLast(geo: Geo, t: Obj<Point>, isos: seq<string>, iso: string)
    requires forall i :: 0 <= i < |isos| ==> isos[i] in ManualCoords && isos[i] in EuroIso3
    requires isos != [] && ObjOk(t)
    requires var init := isos[..|isos| - 1];
      ObjOk(SecondPass(geo, t, init)) && Placement(geo, t, SecondPass(geo, t, init), iso in init, iso)
    ensures ObjOk(SecondPass(geo, t, isos))
    ensures Placement(geo, t, SecondPass(geo, t, isos), iso in isos, iso)
  {
    var n := |isos| - 1;
    var mid := SecondPass(geo, t, isos[..n]);
    SecondPassStepEffect(geo, mid, isos[n], iso);
    PlacementThen(geo, t, mid, SecondPass(geo, t, isos), iso in isos[..n], iso == isos[n], iso);
    assert iso in isos <==> iso in isos[..n] || iso == isos[n] by {
      assert isos == isos[..n] + [isos[n]];
    }
  }

  /** The second pass places the manual countries whose location projects and
      changes nothing else. */
  lemma {:induction false} SecondPassEffect(geo: Geo, t: Obj<Point>, isos: seq<string>, iso: string)
    requires forall i :: 0 <= i < |isos| ==> isos[i] in ManualCoords && isos[i] in EuroIso3
    requires ObjOk(t)
    ensures ObjOk(SecondPass(geo, t, isos))
    ensures Placement(geo, t, SecondPass(geo, t, isos), iso in isos, iso)
    decreases |isos|
  {
    if isos != [] {
      SecondPassEffect(geo, t, isos[..|isos| - 1], iso);
      SecondPassLast(geo, t, isos, iso);
    }
  }

  /** Where each country ends up: a manual country at its projected fixed
      location whenever that projects (whether or not the map has its shape);
      any other European country at the centroid of its last feature with a
      usable one; nothing else is placed. */
  lemma Centroids(geo: Geo, features: seq<Feature>, iso: string)
    ensures var c := SecondPass(geo, FirstPass(geo, Filter(features, IsEuro)), ManualIsos);
      ObjOk(c) &&
      (iso in c.entries ==> iso in EuroIso3) &&
      (iso in ManualCoords ==>
        (iso in c.entries <==> Projected(geo, iso).Some?) &&
        (iso in c.entries ==> c.entries[iso] == Projected(geo, iso).value)) &&
      (iso !in ManualCoords ==>
        (iso in c.entries <==>
          exists f :: f in features && f.id == iso && IsEuro(f) && Usable(geo.centroid(f))))
  {
    var euro := Filter(features, IsEuro);
    var first := FirstPass(geo, euro);
    ManualLocations();
    FirstPassOk(geo, euro);
    SecondPassEffect(geo, first, ManualIsos, iso);
    var c := SecondPass(geo, first, ManualIsos);
    if iso in ManualCoords {
      FirstPassManual(geo, euro, iso);
    } else {
      FirstPassComputed(geo, euro, iso);
      if exists f :: f in features && f.id == iso && IsEuro(f) && Usable(geo.centroid(f)) {
        var f :| f in features && f.id == iso && IsEuro(f) && Usable(geo.centroid(f));
        assert f in euro;
      }
      if iso in c.entries {
        var j :| 0 <= j < |euro| && euro[j].id == iso && Usable(geo.centroid(euro[j]));
        assert euro[j] in euro;
      }
    }
  }

  /** A drawn flow: the two positions, the two countries and the traded value. */
  datatype FlowLink = FlowLink(source: Point, target: Point, reporter: string, partner: string, value: Num)

  /** The link a flow feature's properties yield: exports of 2015 between two
      placed countries, with `+p["Trade Value (US$)"]` as value. */
  function KeptFlow(rd: Reader, centroids: map<string, Point>, p: Row): (l: Option<FlowLink>)
    ensures l.Some? <==>
      Field(p, "Trade Flow") == Some(TradeFlow) && PlusCell(rd, Field(p, "Year")) == Finite(Year as real) &&
      "Reporter ISO" in p && p["Reporter ISO"] in centroids &&
      "Partner ISO" in p && p["Partner ISO"] in centroids
    ensures l.Some? ==>
      l.value.reporter == p["Reporter ISO"] && l.value.partner == p["Partner ISO"] &&
      l.value.source == centroids[l.value.reporter] && l.value.target == centroids[l.value.partner] &&
      l.value.value == PlusCell(rd, Field(p, "Trade Value (US$)"))
  {
    if Field(p, "Trade Flow") == Some(TradeFlow) && PlusCell(rd, Field(p, "Year")) == Finite(Year as real) then
      var reporter := Field(p, "Reporter ISO");
      var partner := Field(p, "Partner ISO");
      var value := PlusCell(rd, Field(p, "Trade Value (US$)"));
      if reporter.Some? && reporter.value in centroids && partner.Some? && partner.value in centroids then
        Some(FlowLink(centroids[reporter.value], centroids[partner.value], reporter.value, partner.value, value))
      else None
    else None
  }

  /** `nodeTotals[k] = (nodeTotals[k] || 0) + value` */
  function AddTotal(t: Obj<Num>, k: string, v: Num): Obj<Num>
  {
    Put(t, k, Add(Finite(NumAt(t, k)), v))
  }

  /** `nodeTotals` after the given links: each adds its value to both ends. */
  function TotalsOf(links: seq<FlowLink>): Obj<Num>
  {
    if links == [] then Obj([], map[])
    else
      var l := links[|links| - 1];
      AddTotal(AddTotal(TotalsOf(links[..|links| - 1]), l.reporter, l.value), l.partner, l.value)
  }

  /** The `forEach` over the flow features, pushing links and adding to totals. */
  method CollectFlows(rd: Reader, centroids: map<string, Point>, flows: seq<Row>)
    returns (links: seq<FlowLink>, nodeTotals: Obj<Num>)
    ensures links == MapSomes(flows, p => KeptFlow(rd, centroids, p))
    ensures nodeTotals == TotalsOf(links)
  {
    links := [];
    nodeTotals := Obj([], map[]);
    for i := 0 to |flows|
      invariant links == MapSomes(flows[..i], p => KeptFlow(rd, centroids, p))
      invariant nodeTotals == TotalsOf(links)
    {
      var kept := KeptFlow(rd, centroids, flows[i]);
      if kept.Some? {
        var l := kept.value;
        links := links + [l];
        nodeTotals := AddTotal(nodeTotals, l.reporter, l.value);
        nodeTotals := AddTotal(nodeTotals, l.partner, l.value);
        assert links[..|links| - 1] == links[..|links| - 1];
      }
      assert flows[..i + 1][..i] == flows[..i];
    }
    assert flows[..|flows|] == flows;
  }

  function LinkValue(l: FlowLink): real
  {
    OrZero(l.value)
  }

  predicate FiniteValues(links: seq<FlowLink>)
  {
    forall i :: 0 <= i < |links| ==> links[i].value.Finite?
  }

  /** With numeric trade values, every link counts once for each of its two
      ends: the totals add up to twice the traded value. */
  lemma {:induction false} TotalsTwice(links: seq<FlowLink>)
    requires FiniteValues(links)
    ensures ObjOk(TotalsOf(links))
    ensures ObjSum(TotalsOf(links)) == 2.0 * SumBy(links, LinkValue)
    decreases |links|
  {
    if links != [] {
      var n := |links| - 1;
      var l := links[n];
      var init := links[..n];
      assert FiniteValues(init) by {
        forall i | 0 <= i < n ensures init[i].value.Finite? { assert init[i] == links[i]; }
      }
      TotalsTwice(init);
      var t := TotalsOf(init);
      var t1 := AddTotal(t, l.reporter, l.value);
      PutSum(t, l.reporter, Add(Finite(NumAt(t, l.reporter)), l.value));
      PutSum(t1, l.partner, Add(Finite(NumAt(t1, l.partner)), l.value));
    }
  }

  /** A country has a total exactly when some link starts or ends there. */
  lemma {:induction false} TotalsKeys(links: seq<FlowLink>, k: string)
    ensures k in TotalsOf(links).entries <==>
      exists i :: 0 <= i < |links| && (links[i].reporter == k || links[i].partner == k)
    decreases |links|
  {
    if links != [] {
      var n := |links| - 1;
      TotalsKeys(links[..n], k);
      if exists i :: 0 <= i < |links| && (links[i].reporter == k || links[i].partner == k) {
        var i :| 0 <= i < |links| && (links[i].reporter == k || links[i].partner == k);
        if i < n { assert links[..n][i] == links[i]; }
      }
      if exists i :: 0 <= i < n && (links[..n][i].reporter == k || links[..n][i].partner == k) {
        var i :| 0 <= i < n && (links[..n][i].reporter == k || links[..n][i].partner == k);
        assert links[i] == links[..n][i];
      }
    }
  }

  function PositiveValue(l: FlowLink): Option<real>
  {
    if l.value.Finite? && l.value.r > 0.0 then Some(l.value.r) else None
  }

  /** `d3.max(links.map(d => d.value).filter(v => v > 0)) || 1`: the largest
      positive trade value, or 1 when there is none. */
  function MaxLinkValue(links: seq<FlowLink>): (m: real)
    ensures m > 0.0
    ensures (forall i :: 0 <= i < |links| ==> PositiveValue(links[i]).None?) ==> m == 1.0
    ensures (exists i :: 0 <= i < |links| && PositiveValue(links[i]).Some?) ==>
      (exists i :: 0 <= i < |links| && PositiveValue(links[i]) == Some(m)) &&
      forall i :: 0 <= i < |links| && PositiveValue(links[i]).Some? ==> PositiveValue(links[i]).value <= m
  {
    var vs := MapSomes(links, PositiveValue);
    match MaxOf(vs)
    case None =>
      1.0
    case Some(m) =>
      assert m in vs;
      forall i | 0 <= i < |links| && PositiveValue(links[i]).Some? ensures PositiveValue(links[i]).value <= m {
        assert PositiveValue(links[i]).value in vs;
      }
      m
  }

  /** `Object.values(nodeTotals)` */
  function Values(o: Obj<Num>): seq<Num>
  {
    seq(|o.keys|, i requires 0 <= i < |o.keys| => if o.keys[i] in o.entries then o.entries[o.keys[i]] else NaN)
  }

  /** `vals[i]` is a number no other number in `vals` exceeds. */
  predicate IsMaxTotal(vals: seq<Num>, i: int)
    requires 0 <= i < |vals|
  {
    vals[i].Finite? && forall j :: 0 <= j < |vals| && vals[j].Finite? ==> vals[j].r <= vals[i].r
  }

  /** `d3.max(values) || 1`: the largest number among the totals (NaN skipped),
      with 1 standing in when there is none or when it is 0. */
  function MaxTotalValue(vals: seq<Num>): (m: real)
    ensures m != 0.0
    ensures (forall i :: 0 <= i < |vals| ==> !vals[i].Finite?) ==> m == 1.0
    ensures m != 1.0 ==>
      (exists i :: 0 <= i < |vals| && vals[i] == Finite(m)) &&
      forall i :: 0 <= i < |vals| && vals[i].Finite? ==> vals[i].r <= m
    ensures forall i :: 0 <= i < |vals| && IsMaxTotal(vals, i) ==>
      m == if vals[i].r == 0.0 then 1.0 else vals[i].r
  {
    var fs := MapSomes(vals, FiniteReal);
    match MaxOf(fs)
    case None =>
      1.0
    case Some(m) =>
      assert m in fs;
      forall i | 0 <= i < |vals| && vals[i].Finite? ensures vals[i].r <= m {
        assert FiniteReal(vals[i]) == Some(vals[i].r);
        assert vals[i].r in fs;
      }
      if m == 0.0 then 1.0 else m
  }

  /** An entry of `nodesData`. */
  datatype NodeDatum = NodeDatum(id: string, name: string, x: real, y: real, totalTrade: real)

  /** `countryNames[k] || k`: a missing or empty name falls back to the code. */
  function NameOf(names: map<string, Option<string>>, k: string): string
  {
    if k in names && names[k].Some? && names[k].value != "" then names[k].value else k
  }

  function NodeOf(centroids: Obj<Point>, names: map<string, Option<string>>, totals: Obj<Num>, k: string): NodeDatum
    requires k in centroids.entries
  {
    NodeDatum(k, NameOf(names, k), centroids.entries[k].x, centroids.entries[k].y, NumAt(totals, k))
  }

  function Unsorted(centroids: Obj<Point>, names: map<string, Option<string>>, totals: Obj<Num>): (ns: seq<NodeDatum>)
    requires ObjOk(centroids)
    ensures |ns| == |centroids.keys|
    ensures forall i :: 0 <= i < |ns| ==> ns[i] == NodeOf(centroids, names, totals, centroids.keys[i])
  {
    seq(|centroids.keys|, i requires 0 <= i < |centroids.keys| => NodeOf(centroids, names, totals, centroids.keys[i]))
  }

  function NodeId(n: NodeDatum): string
  {
    n.id
  }

  function Descending(n: NodeDatum): real
  {
    -n.totalTrade
  }

  /** `nodesData`: one node per placed country, largest total trade first. */
  function NodesData(centroids: Obj<Point>, names: map<string, Option<string>>, totals: Obj<Num>): (ns: seq<NodeDatum>)
    requires ObjOk(centroids)
    ensures |ns| == |centroids.keys|
    ensures forall i, j :: 0 <= i < j < |ns| ==> ns[i].totalTrade >= ns[j].totalTrade
    ensures multiset(ns) == multiset(Unsorted(centroids, names, totals))
  {
    SortBy(Unsorted(centroids, names, totals), Descending)
  }

  /** No two nodes share a country code. */
  lemma NodeIdsDistinct(centroids: Obj<Point>, names: map<string, Option<string>>, totals: Obj<Num>)
    requires ObjOk(centroids)
    ensures var ns := NodesData(centroids, names, totals);
      forall i, j :: 0 <= i < j < |ns| ==> ns[i].id != ns[j].id
  {
    var u := Unsorted(centroids, names, totals);
    forall i, j | 0 <= i < j < |u| ensures NodeId(u[i]) != NodeId(u[j]) {
      assert u[i].id == centroids.keys[i] && u[j].id == centroids.keys[j];
    }
    DistinctKeysPermutation(u, NodesData(centroids, names, totals), NodeId);
  }

  /** Every node is the node of a placed country. */
  lemma NodesArePlaced(centroids: Obj<Point>, names: map<string, Option<string>>, totals: Obj<Num>)
    requires ObjOk(centroids)
    ensures var ns := NodesData(centroids, names, totals);
      forall i :: 0 <= i < |ns| ==> ns[i].id in centroids.entries && ns[i] == NodeOf(centroids, names, totals, ns[i].id)
  {
    var u := Unsorted(centroids, names, totals);
    var ns := NodesData(centroids, names, totals);
    forall i | 0 <= i < |ns| ensures ns[i].id in centroids.entries && ns[i] == NodeOf(centroids, names, totals, ns[i].id) {
      PermutationMember(u, ns, i);
    }
  }

  /** Every placed country has a node. */
  lemma PlacedHasNode(centroids: Obj<Point>, names: map<string, Option<string>>, totals: Obj<Num>, k: string)
    requires ObjOk(centroids) && k in centroids.entries
    ensures var ns := NodesData(centroids, names, totals);
      exists i :: 0 <= i < |ns| && ns[i].id == k
  {
    var u := Unsorted(centroids, names, totals);
    var ns := NodesData(centroids, names, totals);
    var i :| 0 <= i < |centroids.keys| && centroids.keys[i] == k;
    assert u[i] in multiset(ns);
    var j :| 0 <= j < |ns| && ns[j] == u[i];
  }

  /** Each placed country has exactly one node, carrying its name, position
      and total (0 for a country without links). */
  lemma NodesOnePerCountry(centroids: Obj<Point>, names: map<string, Option<string>>, totals: Obj<Num>, k: string)
    requires ObjOk(centroids)
    ensures var ns := NodesData(centroids, names, totals);
      (forall i, j :: 0 <= i < j < |ns| ==> ns[i].id != ns[j].id) &&
      (k in centroids.entries <==> exists i :: 0 <= i < |ns| && ns[i].id == k) &&
      (forall i :: 0 <= i < |ns| ==> ns[i].id in centroids.entries && ns[i] == NodeOf(centroids, names, totals, ns[i].id))
  {
    NodeIdsDistinct(centroids, names, totals);
    NodesArePlaced(centroids, names, totals);
    if k in centroids.entries {
      PlacedHasNode(centroids, names, totals, k);
    }
  }

  const Red := "rgba(255, 87, 34, 1)"
  const BlueFaint := "rgba(51, 102, 204, 0.6)"
  const BlueDim := "rgba(51, 102, 204, 0.1)"

  /** The fill, stroke and stroke width of the selected node, and of any other. */
  const Highlighted := ("rgb(255, 87, 34)", "#333", 2)
  const Plain := ("#d73027", "white", 1)

  /** The selection state of the map. */
  class NetworkView {
    var selectedNodeId: Option<string>

    constructor()
      ensures selectedNodeId == None
    {
      selectedNodeId := None;
    }

    /** `resetSelection`, run by a click on the background or a country shape. */
    method ResetSelection()
      modifies this
      ensures selectedNodeId == None
    {
      selectedNodeId := None;
    }

    /** A click on a node: the selected node again deselects, another selects. */
    method ClickNode(id: string)
      modifies this
      ensures selectedNodeId == Toggle(old(selectedNodeId), id)
    {
      if selectedNodeId == Some(id) {
        selectedNodeId := None;
      } else {
        selectedNodeId := Some(id);
      }
    }

    /** `getStrokeColor(d, isHovered)`: with nothing selected every flow is
        faint blue (red under the pointer); with a country selected its own
        exports are red and every other flow is dimmed. */
    function StrokeColor(l: FlowLink, hovered: bool): (c: string)
      reads this
      ensures selectedNodeId.None? ==> c == (if hovered then Red else BlueFaint)
      ensures selectedNodeId.Some? ==> (c == Red <==> l.reporter == selectedNodeId.value)
      ensures selectedNodeId.Some? ==> (c == BlueDim <==> l.reporter != selectedNodeId.value)
    {
      if selectedNodeId.None? then (if hovered then Red else BlueFaint)
      else if l.reporter == selectedNodeId.value then Red
      else BlueDim
    }

    /** The fill, stroke and stroke width of a node circle. */
    function NodeLook(id: string): (look: (string, string, int))
      reads this
      ensures look == Highlighted <==> selectedNodeId == Some(id)
      ensures look == Highlighted || look == Plain
    {
      if selectedNodeId == Some(id) then Highlighted else Plain
    }

    /** Among the drawn nodes, exactly one is highlighted when a placed
        country is selected, and none otherwise. */
    lemma HighlightedOnce(centroids: Obj<Point>, names: map<string, Option<string>>, totals: Obj<Num>)
      requires ObjOk(centroids)
      ensures var ns := NodesData(centroids, names, totals);
        selectedNodeId.Some? && selectedNodeId.value in centroids.entries ==>
          exists i :: 0 <= i < |ns| && NodeLook(ns[i].id) == Highlighted &&
            forall j :: 0 <= j < |ns| && j != i ==> NodeLook(ns[j].id) == Plain
      ensures var ns := NodesData(centroids, names, totals);
        selectedNodeId.None? || selectedNodeId.value !in centroids.entries ==>
          forall i :: 0 <= i < |ns| ==> NodeLook(ns[i].id) == Plain
    {
      var ns := NodesData(centroids, names, totals);
      NodesArePlaced(centroids, names, totals);
      if selectedNodeId.Some? && selectedNodeId.value in centroids.entries {
        NodeIdsDistinct(centroids, names, totals);
        PlacedHasNode(centroids, names, totals, selectedNodeId.value);
        var i :| 0 <= i < |ns| && ns[i].id == selectedNodeId.value;
        forall j | 0 <= j < |ns| && j != i ensures NodeLook(ns[j].id) == Plain {
          assert ns[j].id != ns[i].id;
        }
      }
    }
  }
}
