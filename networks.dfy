/** The global energy-flow diagram: per-year world sums of three datasets
    (CO₂ per capita, energy use per capita, electricity by source) and a fixed
    graph of eleven nodes and ten links drawn for one year. */
module EnergyFlow {
  import opened Collections
  import opened Js
  import ElectricitySankey

  const Co2Column := "Annual CO₂ emissions (per capita)"
  const EnergyColumn := "Primary energy consumption per capita"

  /** `d3.range(1980, 2025)`, also the slider's range. */
  const FirstYear := 1980
  const LastYear := 2024

  function Range(lo: int, hi: int): (r: seq<int>)
    ensures |r| == if lo <= hi then hi - lo else 0
    ensures forall x :: x in r <==> lo <= x < hi
    ensures forall i :: 0 <= i < |r| ==> r[i] == lo + i
    decreases hi - lo
  {
    if lo >= hi then [] else [lo] + Range(lo + 1, hi)
  }

  /** The valid years, one per slider position. */
  lemma YearsMatchSlider()
    ensures |Range(FirstYear, LastYear + 1)| == 45
    ensures Range(FirstYear, LastYear + 1)[0] == FirstYear
    ensures Range(FirstYear, LastYear + 1)[44] == LastYear
  {
  }

  /** `+d.Year`, the rollup key (a NaN key is a key of its own, as in a `Map`). */
  function YearOf(rd: Reader, r: Row): Num
  {
    PlusCell(rd, Field(r, "Year"))
  }

  /** `+d[col] || 0` */
  function CellOrZero(rd: Reader, col: string, r: Row): real
  {
    OrZero(PlusCell(rd, Field(r, col)))
  }

  /** `d3.sum(v, d => +d[col] || 0)`: every term is a number, so nothing is skipped. */
  function ColumnSum(rd: Reader, col: string, rows: seq<Row>): real
  {
    SumBy(rows, r => CellOrZero(rd, col, r))
  }

  function RowsOfYear(rd: Reader, rows: seq<Row>, y: Num): seq<Row>
  {
    Filter(rows, r => YearOf(rd, r) == y)
  }

  /** `d3.rollup(rows, reduce, d => +d.Year)`: one entry per year present,
      holding the reduction of that year's rows. */
  function Rollup<V>(rd: Reader, rows: seq<Row>, reduce: seq<Row> -> V): (m: map<Num, V>)
    ensures forall y :: y in m <==> exists i :: 0 <= i < |rows| && YearOf(rd, rows[i]) == y
    ensures forall y :: y in m ==> m[y] == reduce(RowsOfYear(rd, rows, y))
  {
    var ys := set i | 0 <= i < |rows| :: YearOf(rd, rows[i]);
    map y | y in ys :: reduce(RowsOfYear(rd, rows, y))
  }

  function Co2Global(rd: Reader, co2: seq<Row>): map<Num, real>
  {
    Rollup(rd, co2, g => ColumnSum(rd, Co2Column, g))
  }

  function EnergyGlobal(rd: Reader, energy: seq<Row>): map<Num, real>
  {
    Rollup(rd, energy, g => ColumnSum(rd, EnergyColumn, g))
  }

  /** The nine per-source sums of one year, in the order other, bio, solar,
      wind, hydro, nuclear, oil, gas, coal. */
  function SourceSums(rd: Reader, g: seq<Row>): (e: seq<real>)
    ensures |e| == |ElectricitySankey.SourceColumns|
  {
    seq(|ElectricitySankey.SourceColumns|, j requires 0 <= j < |ElectricitySankey.SourceColumns| =>
      ColumnSum(rd, ElectricitySankey.SourceColumns[j], g))
  }

  function ElecGlobal(rd: Reader, elec: seq<Row>): map<Num, seq<real>>
  {
    Rollup(rd, elec, g => SourceSums(rd, g))
  }

  /** `map.get(year) || 0`: a year the map lacks counts as 0. */
  function ValueOr0(m: map<Num, real>, year: int): real
  {
    if Finite(year as real) in m then m[Finite(year as real)] else 0.0
  }

  /** A year's sum of a per-capita column, 0 when the year has no rows. */
  lemma YearValue(rd: Reader, rows: seq<Row>, col: string, year: int)
    ensures ValueOr0(Rollup(rd, rows, g => ColumnSum(rd, col, g)), year) ==
            ColumnSum(rd, col, RowsOfYear(rd, rows, Finite(year as real)))
  {
    var y := Finite(year as real);
    var m := Rollup(rd, rows, g => ColumnSum(rd, col, g));
    if y !in m {
      FilterNone(rows, r => YearOf(rd, r) == y);
    }
  }

  /** The eleven nodes, in order. */
  const NodeNames: seq<string> := [
    "Other renewables", "Bioenergy", "Solar", "Wind", "Hydro", "Nuclear", "Oil", "Gas", "Coal",
    "Total Energy Use", "CO₂ Emissions"
  ]

  const TotalNode := 9
  const Co2Node := 10

  /** `Object.fromEntries(nodes.map((d, i) => [d.name, i]))` */
  function NodeIndex(names: seq<string>): map<string, nat>
  {
    LastWins(Positions(names))
  }

  /** Each name paired with its position. */
  function Positions(names: seq<string>): (ps: seq<(string, nat)>)
    ensures |ps| == |names|
    ensures forall i :: 0 <= i < |names| ==> ps[i] == (names[i], i)
  {
    if names == [] then [] else Positions(names[..|names| - 1]) + [(names[|names| - 1], |names| - 1)]
  }

  /** With distinct names, every name maps to its own position. */
  lemma NodeIndexPositions(names: seq<string>, i: int)
    requires Distinct(names) && 0 <= i < |names|
    ensures names[i] in NodeIndex(names) && NodeIndex(names)[names[i]] == i
  {
    var pairs := Positions(names);
    assert IsLastKey(pairs, i);
  }

  lemma NodeNamesDistinct()
    ensures Distinct(NodeNames)
  {
  }

  datatype Graph = Graph(nodes: seq<string>, links: seq<ElectricitySankey.Link>)

  /** `buildSankey(year)` up to the layout: nothing is drawn for a year without
      electricity data; `co2Val` is computed by the script but feeds no link. */
  function BuildFlow(elecGlobal: map<Num, seq<real>>, energyGlobal: map<Num, real>,
                     co2Global: map<Num, real>, year: int): (g: Option<Graph>)
    requires forall y :: y in elecGlobal ==> |elecGlobal[y]| == 9
    ensures g.None? <==> Finite(year as real) !in elecGlobal
    ensures g.Some? ==>
      g.value.nodes == NodeNames && |g.value.links| == 10 &&
      (forall j :: 0 <= j < 9 ==>
        g.value.links[j] == ElectricitySankey.Link(j, TotalNode, elecGlobal[Finite(year as real)][j])) &&
      g.value.links[9] == ElectricitySankey.Link(TotalNode, Co2Node, ValueOr0(energyGlobal, year))
  {
    var energyVal := ValueOr0(energyGlobal, year);
    var co2Val := ValueOr0(co2Global, year);
    if Finite(year as real) !in elecGlobal then None
    else
      NodeNamesDistinct();
      assert NodeNames[9] == "Total Energy Use" && NodeNames[10] == "CO₂ Emissions";
      Some(FlowGraph(NodeNames, elecGlobal[Finite(year as real)], energyVal))
  }

  /** The nodes and links `buildSankey` hands to the layout, the links found
      through `nodeIndex`: source `j` into node 9, and node 9 into node 10. */
  function FlowGraph(names: seq<string>, e: seq<real>, energyVal: real): (g: Graph)
    requires Distinct(names) && |names| == 11 && |e| == 9
    requires names[9] == "Total Energy Use" && names[10] == "CO₂ Emissions"
    ensures g.nodes == names && |g.links| == 10
    ensures forall j :: 0 <= j < 9 ==> g.links[j] == ElectricitySankey.Link(j, 9, e[j])
    ensures g.links[9] == ElectricitySankey.Link(9, 10, energyVal)
  {
    var idx := NodeIndex(names);
    assert forall i :: 0 <= i < |names| ==> names[i] in idx && idx[names[i]] == i by {
      forall i | 0 <= i < |names| ensures names[i] in idx && idx[names[i]] == i {
        NodeIndexPositions(names, i);
      }
    }
    var sourceLinks := seq(9, j requires 0 <= j < 9 =>
      ElectricitySankey.Link(idx[names[j]], idx["Total Energy Use"], e[j]));
    Graph(names, sourceLinks + [ElectricitySankey.Link(idx["Total Energy Use"], idx["CO₂ Emissions"], energyVal)])
  }

  /** The drawn graph's link values are the year's world sums: each source's
      electricity into "Total Energy Use", and the year's energy use (0 for a
      year without energy rows) on to "CO₂ Emissions". */
  lemma FlowLinks(rd: Reader, elec: seq<Row>, energy: seq<Row>, co2: seq<Row>, year: int)
    requires Finite(year as real) in ElecGlobal(rd, elec)
    ensures var g := BuildFlow(ElecGlobal(rd, elec), EnergyGlobal(rd, energy), Co2Global(rd, co2), year);
      g.Some? &&
      (forall j :: 0 <= j < 9 ==>
        g.value.links[j].value ==
        ColumnSum(rd, ElectricitySankey.SourceColumns[j], RowsOfYear(rd, elec, Finite(year as real)))) &&
      g.value.links[9].value == ColumnSum(rd, EnergyColumn, RowsOfYear(rd, energy, Finite(year as real)))
  {
    YearValue(rd, energy, EnergyColumn, year);
  }

  /** Node 9 collects the sources and node 10 is the CO₂ sink. */
  lemma NodeRoles()
    ensures NodeNames[TotalNode] == "Total Energy Use" && NodeNames[Co2Node] == "CO₂ Emissions"
  {
  }

  /** The CO₂ sums never reach the graph. */
  lemma Co2Unused(elecGlobal: map<Num, seq<real>>, energyGlobal: map<Num, real>,
                  c1: map<Num, real>, c2: map<Num, real>, year: int)
    requires forall y :: y in elecGlobal ==> |elecGlobal[y]| == 9
    ensures BuildFlow(elecGlobal, energyGlobal, c1, year) == BuildFlow(elecGlobal, energyGlobal, c2, year)
  {
  }
}
