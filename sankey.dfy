/** The electricity sankey diagram of one year: rows coerced once at load,
    the countries of that year ranked by total production, a node list
    (root, countries, sources), the links between them, and the node the
    user has clicked. */
module ElectricitySankey {
  import opened Collections
  import opened Js
  import opened Text

  const TargetCountries: seq<string> := [
    "Italy", "France", "Germany", "Spain", "United Kingdom",
    "Sweden", "Norway", "Netherlands", "Greece", "Switzerland"
  ]

  const Suffix := " - TWh (adapted for visualization of chart electricity-prod-source-stacked)"

  /** The CSV columns of `SOURCE_KEYS`, in its insertion order. */
  const SourceColumns: seq<string> := [
    "Other renewables excluding bioenergy" + Suffix,
    "Electricity from bioenergy" + Suffix,
    "Electricity from solar" + Suffix,
    "Electricity from wind" + Suffix,
    "Electricity from hydro" + Suffix,
    "Electricity from nuclear" + Suffix,
    "Electricity from oil" + Suffix,
    "Electricity from gas" + Suffix,
    "Electricity from coal" + Suffix
  ]

  /** The short names of `SOURCE_KEYS`, matching `SourceColumns` position by position. */
  const SourceNames: seq<string> := [
    "Other Renewables", "Bioenergy", "Solar", "Wind", "Hydro", "Nuclear", "Oil", "Gas", "Coal"
  ]

  /** A CSV row after the load-time coercion: the year and the nine sources
      are numbers, and `total` is the `totalProduction` field, written when a
      year is drawn. */
  datatype ElecRow = ElecRow(entity: string, year: Num, sources: seq<real>, total: real)

  /** `+d[key] || 0`: a missing, non-numeric or zero cell is 0. */
  function SourceValue(r: Row, key: string, rd: Reader): (v: real)
    ensures key !in r ==> v == 0.0
    ensures key in r && (AllSpace(r[key]) || !HasDigit(r[key])) ==> v == 0.0
    ensures key in r && HasDigit(r[key]) && rd.unaryPlus(r[key]).Finite? && !AllSpace(r[key]) ==>
      v == rd.unaryPlus(r[key]).r
    ensures key in r && HasDigit(r[key]) && rd.unaryPlus(r[key]).NaN? && !AllSpace(r[key]) ==> v == 0.0
  {
    OrZero(PlusCell(rd, Field(r, key)))
  }

  /** The row the `forEach` at load leaves behind. */
  function Coerced(r: Row, rd: Reader): (e: ElecRow)
    ensures |e.sources| == |SourceColumns|
  {
    ElecRow(Str(Field(r, "Entity")), PlusCell(rd, Field(r, "Year")),
            seq(|SourceColumns|, j requires 0 <= j < |SourceColumns| => SourceValue(r, SourceColumns[j], rd)), 0.0)
  }

  /** Coerces every row, one at a time. */
  method CoerceRows(rows: seq<Row>, rd: Reader) returns (data: seq<ElecRow>)
    ensures |data| == |rows|
    ensures forall i :: 0 <= i < |rows| ==> data[i] == Coerced(rows[i], rd)
  {
    data := [];
    for i := 0 to |rows|
      invariant |data| == i
      invariant forall k :: 0 <= k < i ==> data[k] == Coerced(rows[k], rd)
    {
      data := data + [Coerced(rows[i], rd)];
    }
  }

  /** `d.Year === year && TARGET_COUNTRIES.has(d.Entity)`: a NaN year matches no year. */
  predicate InYear(d: ElecRow, year: int)
  {
    d.year == Finite(year as real) && d.entity in TargetCountries
  }

  function YearRows(data: seq<ElecRow>, year: int): seq<ElecRow>
  {
    Filter(data, d => InYear(d, year))
  }

  lemma YearRowsEmpty(data: seq<ElecRow>, year: int)
    ensures YearRows(data, year) == [] <==> forall i :: 0 <= i < |data| ==> !InYear(data[i], year)
  {
    if forall i :: 0 <= i < |data| ==> !InYear(data[i], year) {
      FilterNone(data, d => InYear(d, year));
    }
    forall i | 0 <= i < |data| && YearRows(data, year) == [] ensures !InYear(data[i], year) {
      assert data[i] in data;
    }
  }

  /** `Object.keys(SOURCE_KEYS).reduce((sum, key) => sum + d[key], 0)` */
  function TotalOf(d: ElecRow): real
  {
    SumBy(d.sources, Identity)
  }

  /** A row carrying its own `totalProduction`. */
  function WithTotal(d: ElecRow): ElecRow
  {
    d.(total := TotalOf(d))
  }

  function WithTotals(rows: seq<ElecRow>): (r: seq<ElecRow>)
    ensures |r| == |rows|
    ensures forall i :: 0 <= i < |rows| ==> r[i] == WithTotal(rows[i])
  {
    seq(|rows|, i requires 0 <= i < |rows| => WithTotal(rows[i]))
  }

  /** Writes `totalProduction` into every row of the year. */
  method SetTotals(rows: seq<ElecRow>) returns (r: seq<ElecRow>)
    ensures r == WithTotals(rows)
  {
    r := rows;
    for i := 0 to |rows|
      invariant |r| == |rows|
      invariant forall k :: 0 <= k < i ==> r[k] == WithTotal(rows[k])
      invariant forall k :: i <= k < |rows| ==> r[k] == rows[k]
    {
      r := r[i := WithTotal(r[i])];
    }
  }

  /** `b.totalProduction - a.totalProduction` sorts by this key ascending. */
  function Descending(d: ElecRow): real
  {
    -d.total
  }

  /** The countries of the year, each with its total, largest total first. */
  function Ranked(data: seq<ElecRow>, year: int): (r: seq<ElecRow>)
    ensures |r| == |YearRows(data, year)|
    ensures forall i, j :: 0 <= i < j < |r| ==> r[i].total >= r[j].total
    ensures multiset(r) == multiset(WithTotals(YearRows(data, year)))
  {
    SortBy(WithTotals(YearRows(data, year)), Descending)
  }

  /** The ranked rows are exactly the rows of the year's listed countries, each
      with its total: none lost and none added. */
  lemma RankedRows(data: seq<ElecRow>, year: int, x: ElecRow)
    ensures x in Ranked(data, year) <==> exists d :: d in data && InYear(d, year) && x == WithTotal(d)
  {
    var rows := YearRows(data, year);
    SameMembers(Ranked(data, year), WithTotals(rows));
    WithTotalsMembers(rows, x);
    if exists d :: d in data && InYear(d, year) && x == WithTotal(d) {
      var d :| d in data && InYear(d, year) && x == WithTotal(d);
      assert d in rows;
    }
  }

  /** The totalled rows are the rows, each with its total. */
  lemma WithTotalsMembers(rows: seq<ElecRow>, x: ElecRow)
    ensures x in WithTotals(rows) <==> exists d :: d in rows && x == WithTotal(d)
  {
    var totalled := WithTotals(rows);
    if x in totalled {
      var k :| 0 <= k < |totalled| && totalled[k] == x;
      assert rows[k] in rows;
    }
    if exists d :: d in rows && x == WithTotal(d) {
      var d :| d in rows && x == WithTotal(d);
      var k :| 0 <= k < |rows| && rows[k] == d;
      assert totalled[k] == x;
    }
  }

  datatype Category = Root | Country | Source

  datatype Node = Node(name: string, category: Category)

  datatype Link = Link(source: nat, target: nat, value: real)

  datatype Graph = Graph(nodes: seq<Node>, links: seq<Link>)

  const RootName := "Total Production"

  /** `nodes`: the root at index 0, the countries in rank order at 1..n, then
      the nine sources. */
  function SankeyNodes(sel: seq<ElecRow>): (ns: seq<Node>)
    ensures |ns| == 1 + |sel| + |SourceNames|
    ensures forall k :: 0 <= k < |ns| ==> (ns[k].category == Root <==> k == 0)
    ensures forall k :: 0 <= k < |ns| ==> (ns[k].category == Country <==> 1 <= k <= |sel|)
    ensures forall i :: 0 <= i < |sel| ==> ns[1 + i].name == sel[i].entity
    ensures forall j :: 0 <= j < |SourceNames| ==> ns[1 + |sel| + j].name == SourceNames[j]
  {
    [Node(RootName, Root)] +
    seq(|sel|, i requires 0 <= i < |sel| => Node(sel[i].entity, Country)) +
    seq(|SourceNames|, j requires 0 <= j < |SourceNames| => Node(SourceNames[j], Source))
  }

  /** The `[d.Entity, i + 1]` pairs `countryIndices` is built from. */
  function Pairs(sel: seq<ElecRow>): (ps: seq<(string, nat)>)
    ensures |ps| == |sel|
    ensures forall i :: 0 <= i < |sel| ==> ps[i] == (sel[i].entity, i + 1)
  {
    seq(|sel|, i requires 0 <= i < |sel| => (sel[i].entity, i + 1))
  }

  /** `idx` maps every row's country to one of the country nodes. */
  predicate IndexesCountries(sel: seq<ElecRow>, idx: map<string, nat>)
  {
    (forall i :: 0 <= i < |sel| ==> sel[i].entity in idx) &&
    (forall e :: e in idx ==> 1 <= idx[e] <= |sel|)
  }

  /** `countryIndices`: entity to node index; a repeated entity keeps the index
      of its last row. */
  function CountryIndices(sel: seq<ElecRow>): (m: map<string, nat>)
    ensures IndexesCountries(sel, m)
  {
    var pairs := Pairs(sel);
    var m := LastWins(pairs);
    forall i | 0 <= i < |sel| ensures sel[i].entity in m {
      assert pairs[i].0 == sel[i].entity;
    }
    forall e | e in m ensures 1 <= m[e] <= |sel| {
      LastWinsLast(pairs, e);
    }
    m
  }

  /** The node a row links to is a country node of the same name, the one of
      the last row for that country. */
  lemma CountryIndexNamed(sel: seq<ElecRow>, i: int)
    requires 0 <= i < |sel|
    ensures sel[i].entity in CountryIndices(sel)
    ensures var k := CountryIndices(sel)[sel[i].entity];
      1 <= k <= |sel| && sel[k - 1].entity == sel[i].entity &&
      forall j :: k <= j < |sel| ==> sel[j].entity != sel[i].entity
  {
    var pairs := Pairs(sel);
    LastWinsLast(pairs, sel[i].entity);
    var k :| 0 <= k < |pairs| && pairs[k].0 == sel[i].entity && IsLastKey(pairs, k)
             && LastWins(pairs)[sel[i].entity] == pairs[k].1;
    assert CountryIndices(sel)[sel[i].entity] == k + 1;
    forall j | k + 1 <= j < |sel| ensures sel[j].entity != sel[i].entity {
      assert pairs[j].0 == sel[j].entity;
    }
  }

  predicate DistinctEntities(sel: seq<ElecRow>)
  {
    forall i, j :: 0 <= i < j < |sel| ==> sel[i].entity != sel[j].entity
  }

  /** With one row per country (the dataset has one per country and year),
      each row's links leave from its own node. */
  lemma CountryIndexOwn(sel: seq<ElecRow>, i: int)
    requires DistinctEntities(sel) && 0 <= i < |sel|
    ensures sel[i].entity in CountryIndices(sel) && CountryIndices(sel)[sel[i].entity] == i + 1
  {
    CountryIndexNamed(sel, i);
  }

  /** One root link per row of the year, to its country, carrying its total. */
  function RootLinks(sel: seq<ElecRow>, idx: map<string, nat>): (ls: seq<Link>)
    requires IndexesCountries(sel, idx)
    ensures |ls| == |sel|
    ensures forall i {:trigger ls[i]} :: 0 <= i < |sel| ==> ls[i] == Link(0, idx[sel[i].entity], sel[i].total)
  {
    seq(|sel|, i requires 0 <= i < |sel| => Link(0, idx[sel[i].entity], sel[i].total))
  }

  /** The links of one country to the first `m` sources, in source order. */
  function SourceLinksOf(d: ElecRow, ci: nat, start: nat, m: nat): seq<Link>
    requires m <= |d.sources|
  {
    if m == 0 then []
    else
      var rest := SourceLinksOf(d, ci, start, m - 1);
      if d.sources[m - 1] > 0.1 then rest + [Link(ci, start + m - 1, d.sources[m - 1])] else rest
  }

  /** A country links to source `j` exactly when it produced more than
      0.1 TWh from it, and the link carries that amount. */
  lemma {:induction false} SourceLinkIff(d: ElecRow, ci: nat, start: nat, m: nat, l: Link)
    requires m <= |d.sources|
    ensures l in SourceLinksOf(d, ci, start, m) <==>
      exists j :: 0 <= j < m && d.sources[j] > 0.1 && l == Link(ci, start + j, d.sources[j])
  {
    if m > 0 {
      SourceLinkIff(d, ci, start, m - 1, l);
    }
  }

  predicate WellFormed(sel: seq<ElecRow>)
  {
    forall i :: 0 <= i < |sel| ==> |sel[i].sources| == |SourceNames|
  }

  /** The country-to-source links of the first `k` rows. */
  function AllSourceLinks(sel: seq<ElecRow>, idx: map<string, nat>, k: nat): seq<Link>
    requires WellFormed(sel) && IndexesCountries(sel, idx) && k <= |sel|
  {
    if k == 0 then []
    else AllSourceLinks(sel, idx, k - 1) + SourceLinksOf(sel[k - 1], idx[sel[k - 1].entity], 1 + |sel|, |sel[k - 1].sources|)
  }

  /** `links`: the root links, then each country's source links in rank order. */
  function SankeyLinks(sel: seq<ElecRow>): seq<Link>
    requires WellFormed(sel)
  {
    var idx := CountryIndices(sel);
    RootLinks(sel, idx) + AllSourceLinks(sel, idx, |sel|)
  }

  /** `l` is the link of ranked country `i` to a source it produced more than
      0.1 TWh from, carrying that amount. */
  predicate LinkOfCountry(sel: seq<ElecRow>, idx: map<string, nat>, i: int, l: Link)
    requires IndexesCountries(sel, idx) && 0 <= i < |sel|
  {
    exists j :: 0 <= j < |sel[i].sources| && sel[i].sources[j] > 0.1 &&
                l == Link(idx[sel[i].entity], 1 + |sel| + j, sel[i].sources[j])
  }

  /** The source links of the first `k` countries: one from a country to
      source `j` exactly when it produced more than 0.1 TWh from it. */
  lemma {:induction false} AllSourceLinksIff(sel: seq<ElecRow>, idx: map<string, nat>, k: nat, l: Link)
    requires WellFormed(sel) && IndexesCountries(sel, idx) && k <= |sel|
    ensures l in AllSourceLinks(sel, idx, k) <==> exists i :: 0 <= i < k && LinkOfCountry(sel, idx, i, l)
  {
    if k > 0 {
      var d := sel[k - 1];
      var prev := AllSourceLinks(sel, idx, k - 1);
      var mine := SourceLinksOf(d, idx[d.entity], 1 + |sel|, |d.sources|);
      assert AllSourceLinks(sel, idx, k) == prev + mine;
      AllSourceLinksIff(sel, idx, k - 1, l);
      SourceLinkIff(d, idx[d.entity], 1 + |sel|, |d.sources|, l);
      assert l in mine <==> LinkOfCountry(sel, idx, k - 1, l);
      if exists i :: 0 <= i < k && LinkOfCountry(sel, idx, i, l) {
        var i :| 0 <= i < k && LinkOfCountry(sel, idx, i, l);
        if i < k - 1 {
          assert l in prev;
        }
      }
    }
  }

  /** Every link joins existing nodes: the root to a country, or a country to
      a source, never backwards. */
  lemma LinksInRange(sel: seq<ElecRow>, l: Link)
    requires WellFormed(sel) && l in SankeyLinks(sel)
    ensures (l.source == 0 && 1 <= l.target <= |sel|) ||
            (1 <= l.source <= |sel| && |sel| < l.target < 1 + |sel| + |SourceNames|)
  {
    var idx := CountryIndices(sel);
    var roots := RootLinks(sel, idx);
    if l in roots {
      var i :| 0 <= i < |roots| && roots[i] == l;
    } else {
      assert l in AllSourceLinks(sel, idx, |sel|);
      AllSourceLinksIff(sel, idx, |sel|, l);
      var i :| 0 <= i < |sel| && LinkOfCountry(sel, idx, i, l);
      var j :| 0 <= j < |sel[i].sources| && sel[i].sources[j] > 0.1 &&
               l == Link(idx[sel[i].entity], 1 + |sel| + j, sel[i].sources[j]);
    }
  }

  /** No link leaves a source node and none enters the root. */
  lemma LinkCategories(sel: seq<ElecRow>, l: Link)
    requires WellFormed(sel) && l in SankeyLinks(sel)
    ensures l.source < |SankeyNodes(sel)| && SankeyNodes(sel)[l.source].category != Source
    ensures l.target < |SankeyNodes(sel)| && SankeyNodes(sel)[l.target].category != Root
  {
    LinksInRange(sel, l);
  }

  function LinkValue(l: Link): real { l.value }

  predicate FromRoot(l: Link) { l.source == 0 }

  /** The root's outflow is the sum of the totals of the ranked countries. */
  lemma RootOutflow(sel: seq<ElecRow>)
    requires WellFormed(sel)
    ensures SumBy(Filter(SankeyLinks(sel), FromRoot), LinkValue) == SumBy(sel, (d: ElecRow) => d.total)
  {
    var idx := CountryIndices(sel);
    var roots := RootLinks(sel, idx);
    var others := AllSourceLinks(sel, idx, |sel|);
    FilterAppend(roots, others, FromRoot);
    FilterAll(roots, FromRoot);
    forall i | 0 <= i < |others| ensures !FromRoot(others[i]) {
      assert others[i] in SankeyLinks(sel);
      LinksInRange(sel, others[i]);
      AllSourceLinksIff(sel, idx, |sel|, others[i]);
    }
    FilterNone(others, FromRoot);
    assert roots + [] == roots;
    SumByPointwise(roots, LinkValue, sel, (d: ElecRow) => d.total);
  }

  /** A country produced more than 0.1 TWh from a source exactly when a link
      joins its node to that source's node, carrying the amount. */
  lemma SourceLinkExists(sel: seq<ElecRow>, i: int, j: int)
    requires WellFormed(sel) && DistinctEntities(sel)
    requires 0 <= i < |sel| && 0 <= j < |SourceNames|
    ensures sel[i].sources[j] > 0.1 <==> Link(1 + i, 1 + |sel| + j, sel[i].sources[j]) in SankeyLinks(sel)
  {
    if sel[i].sources[j] > 0.1 {
      SourceLinkPresent(sel, i, j);
    }
    if Link(1 + i, 1 + |sel| + j, sel[i].sources[j]) in SankeyLinks(sel) {
      SourceLinkAbove(sel, i, j);
    }
  }

  /** A source a country produced more than 0.1 TWh from is linked to it. */
  lemma SourceLinkPresent(sel: seq<ElecRow>, i: int, j: int)
    requires WellFormed(sel) && DistinctEntities(sel)
    requires 0 <= i < |sel| && 0 <= j < |SourceNames| && sel[i].sources[j] > 0.1
    ensures Link(1 + i, 1 + |sel| + j, sel[i].sources[j]) in SankeyLinks(sel)
  {
    var idx := CountryIndices(sel);
    var l := Link(1 + i, 1 + |sel| + j, sel[i].sources[j]);
    CountryIndexOwn(sel, i);
    assert LinkOfCountry(sel, idx, i, l);
    AllSourceLinksIff(sel, idx, |sel|, l);
  }

  /** A link from a country to a source means it produced more than 0.1 TWh
      from that source. */
  lemma SourceLinkAbove(sel: seq<ElecRow>, i: int, j: int)
    requires WellFormed(sel) && DistinctEntities(sel)
    requires 0 <= i < |sel| && 0 <= j < |SourceNames|
    requires Link(1 + i, 1 + |sel| + j, sel[i].sources[j]) in SankeyLinks(sel)
    ensures sel[i].sources[j] > 0.1
  {
    var idx := CountryIndices(sel);
    var l := Link(1 + i, 1 + |sel| + j, sel[i].sources[j]);
    assert l in AllSourceLinks(sel, idx, |sel|);
    AllSourceLinksIff(sel, idx, |sel|, l);
    var i' :| 0 <= i' < |sel| && LinkOfCountry(sel, idx, i', l);
    var j' :| 0 <= j' < |sel[i'].sources| && sel[i'].sources[j'] > 0.1 &&
              l == Link(idx[sel[i'].entity], 1 + |sel| + j', sel[i'].sources[j']);
    CountryIndexOwn(sel, i');
  }

  /** Pushes the nodes, in order. */
  method PushNodes(sel: seq<ElecRow>) returns (nodes: seq<Node>)
    ensures nodes == SankeyNodes(sel)
  {
    nodes := [Node(RootName, Root)];
    for i := 0 to |sel|
      invariant nodes == [Node(RootName, Root)] + seq(i, k requires 0 <= k < i => Node(sel[k].entity, Country))
    {
      nodes := nodes + [Node(sel[i].entity, Country)];
    }
    var countries := nodes;
    for j := 0 to |SourceNames|
      invariant nodes == countries + seq(j, k requires 0 <= k < j => Node(SourceNames[k], Source))
    {
      nodes := nodes + [Node(SourceNames[j], Source)];
    }
  }

  /** Pushes one root link per country. */
  method PushRootLinks(sel: seq<ElecRow>, idx: map<string, nat>) returns (links: seq<Link>)
    requires IndexesCountries(sel, idx)
    ensures links == RootLinks(sel, idx)
  {
    links := [];
    for i := 0 to |sel|
      invariant |links| == i
      invariant forall k {:trigger links[k]} :: 0 <= k < i ==> links[k] == Link(0, idx[sel[k].entity], sel[k].total)
    {
      links := links + [Link(0, idx[sel[i].entity], sel[i].total)];
    }
  }

  /** Pushes the links of one country to the sources above 0.1 TWh. */
  method PushSourceLinks(d: ElecRow, ci: nat, start: nat, links: seq<Link>) returns (r: seq<Link>)
    requires |d.sources| == |SourceNames|
    ensures r == links + SourceLinksOf(d, ci, start, |d.sources|)
  {
    r := links;
    for j := 0 to |d.sources|
      invariant r == links + SourceLinksOf(d, ci, start, j)
    {
      var val := d.sources[j];
      if val > 0.1 {
        r := r + [Link(ci, start + j, val)];
      }
    }
  }

  /** Pushes the root links, then each country's source links. */
  method PushLinks(sel: seq<ElecRow>, countryIndices: map<string, nat>) returns (links: seq<Link>)
    requires WellFormed(sel) && IndexesCountries(sel, countryIndices)
    ensures links == RootLinks(sel, countryIndices) + AllSourceLinks(sel, countryIndices, |sel|)
  {
    var roots := PushRootLinks(sel, countryIndices);
    links := roots;
    for i := 0 to |sel|
      invariant links == roots + AllSourceLinks(sel, countryIndices, i)
    {
      links := PushSourceLinks(sel[i], countryIndices[sel[i].entity], 1 + |sel|, links);
    }
  }

  /** What a year's drawing shows: a message when none of the listed countries
      has a row for it, a diagram otherwise. */
  datatype Outcome = NoData(message: string) | Diagram(graph: Graph)

  /** `buildSankey(year)` up to the layout. */
  method BuildSankey(data: seq<ElecRow>, year: int) returns (out: Outcome)
    requires forall i :: 0 <= i < |data| ==> |data[i].sources| == |SourceNames|
    ensures out.NoData? <==> forall i :: 0 <= i < |data| ==> !InYear(data[i], year)
    ensures out.NoData? ==> out.message == "No data for these countries in " + IntToString(year)
    ensures out.Diagram? ==>
      WellFormed(Ranked(data, year)) &&
      out.graph == Graph(SankeyNodes(Ranked(data, year)), SankeyLinks(Ranked(data, year)))
  {
    var yearData := YearRows(data, year);
    yearData := SetTotals(yearData);
    yearData := SortBy(yearData, Descending);
    assert yearData == Ranked(data, year);
    YearRowsEmpty(data, year);
    if |yearData| == 0 {
      return NoData("No data for these countries in " + IntToString(year));
    }
    RankedWellFormed(data, year);
    var nodes := PushNodes(yearData);
    var countryIndices := CountryIndices(yearData);
    var links := PushLinks(yearData, countryIndices);
    out := Diagram(Graph(nodes, links));
  }

  lemma RankedWellFormed(data: seq<ElecRow>, year: int)
    requires forall i :: 0 <= i < |data| ==> |data[i].sources| == |SourceNames|
    ensures WellFormed(Ranked(data, year))
  {
    var r := Ranked(data, year);
    forall i | 0 <= i < |r| ensures |r[i].sources| == |SourceNames| {
      RankedRows(data, year, r[i]);
      var d :| d in data && InYear(d, year) && r[i] == WithTotal(d);
    }
  }

  /** How a link is drawn: its stroke (`url(#uid)`, the gradient between its
      ends, or the grey `#e0e0e0`) and its stroke opacity. */
  datatype Stroke = Gradient | Grey

  datatype LinkStyle = LinkStyle(stroke: Stroke, opacity: real)

  predicate Touches(l: Link, node: nat)
  {
    l.source == node || l.target == node
  }

  /** Two clicks on a node that was not active leave nothing selected, and a
      click on a second node moves the selection there. */
  lemma ClickTwice(active: Option<nat>, d: nat, e: nat)
    requires active != Some(d)
    ensures Toggle(Toggle(active, d), d) == None
    ensures e != d ==> Toggle(Toggle(active, d), e) == Some(e)
  {
  }

  /** The selection state of one drawn diagram. */
  class SankeyView {
    var activeNode: Option<nat>

    /** Each drawing starts with no active node. */
    constructor()
      ensures activeNode == None
    {
      activeNode := None;
    }

    /** A click on node `d` (it does not reach the background). */
    method ClickNode(d: nat)
      modifies this
      ensures activeNode == Toggle(old(activeNode), d)
    {
      if activeNode == Some(d) {
        ResetView();
        return;
      }
      activeNode := Some(d);
    }

    /** `resetView`, run by a click on the background. */
    method ResetView()
      modifies this
      ensures activeNode == None
    {
      activeNode := None;
    }

    /** The style the links transition to: all gradients at 0.5 with no
        active node; otherwise the links touching it keep their gradient at
        0.8 and the rest turn grey at 0.1. */
    function StyleOf(l: Link): (st: LinkStyle)
      reads this
      ensures activeNode.None? ==> st == LinkStyle(Gradient, 0.5)
      ensures activeNode.Some? ==>
        (st.stroke == Gradient <==> Touches(l, activeNode.value)) &&
        (st.opacity == 0.8 <==> Touches(l, activeNode.value)) &&
        (st.opacity == 0.1 <==> !Touches(l, activeNode.value))
    {
      match activeNode
      case None => LinkStyle(Gradient, 0.5)
      case Some(d) => if Touches(l, d) then LinkStyle(Gradient, 0.8) else LinkStyle(Grey, 0.1)
    }
  }
}
