# Energy and emissions charts: the data layer, modelled in Dafny

The repository is a set of browser scripts, one per chart, that load CSV and
JSON files about energy use, electricity production and CO₂ emissions and
draw them with D3. Around the drawing code, each script reshapes the rows it
loads:

- it filters rows by country list and year window;
- it converts cell text to numbers;
- it groups and sums, takes count-guarded means, and picks the latest year per country;
- it pivots long rows into one record per country;
- it takes zero-guarded shares and bins years;
- it computes box-plot fences;
- it builds the sankey graphs and the trade-flow edges;
- it resolves names through alias and ISO tables;
- it classifies values into colour bands;
- it formats numbers with thousands separators;
- it keeps small click selections.

This project models that layer, one Dafny module per script, and proves what
each step promises.

Shared modules:

- `Js` holds the values the scripts compute with.
  - A `Row` is a map from column name to cell text.
  - A `Num` is `Finite(real)` or `NaN`.
  - Truthiness, `|| 0`, `d3.mean` and the `toNum` variants are defined on these.
- `Collections` holds filter, find, group-by in first-appearance order, the last-write-wins map a `Map` or object built in a loop gives, sums, maxima and a sort.
- `Text` holds trimming, lower-casing, search, split and integer printing.

The engine's reading of a numeric literal is a parameter, `Js.Reader`. Only the parts the scripts rely on are fixed:

- blank text reads as 0 under unary `+`;
- text without a decimal digit reads as NaN;
- `parseFloat` of the empty string is NaN.

Form of the model:

- Code that updates state step by step is written as methods with loops and invariants, each proved against a specification function:
  - the per-name sums of the 3D globe;
  - the `byCY` index and the bin loops of the pyramid;
  - the `agg` accumulation and the waffle totals;
  - the sankey row coercion, totals and `push` loops;
  - the centroid table and flow filter of the trade network;
  - the cartogram's annotation of the latest rows (`AnnotateRows`) and its energy index (`IndexEnergy`).
- The click selections are classes whose methods change a field:
  - the legend set of the area chart;
  - the active sankey node;
  - the selected network node.
- Pure pipelines are functions.

## Model

| member | source | states |
|---|---|---|
| Js.KeepNumeric | visualizing_temporal.js:10 | the stripped text holds only digits, ".", "+", "-", "e" and "E", and is no longer than the input |
| Js.KeepNumericMembers | visualizing_spatial/visualizing_symbolic.js:44 | a character survives the strip exactly when it occurs in the input and is numeric |
| Js.KeepNumericIdempotent | visualizing_spatial/visualizing_symbolic.js:44 | stripping twice is stripping once |
| Js.KeepNumericDigits | visualizing_spatial/visualizing_symbolic.js:44 | the stripped text holds a digit exactly when the input does |
| Js.ToNumParse | visualizing_temporal.js:8-12 | a missing cell and a cell without any digit are NaN |
| Js.ToNumParseClean | visualizing_distributions.js:321-325 | converting an already cleaned cell gives the same number |
| Js.ToNumPlus | visualizing_spatial/visualizing_symbolic.js:42-45 | a missing cell is NaN, a cell with no numeric character is 0, and one with numeric characters but no digit is NaN |
| Js.ToNumPlusClean | visualizing_spatial/visualizing_bubble.js:62-65 | converting an already cleaned cell gives the same number |
| Js.Mean | comparing_categories.js:37 | `d3.mean` is a number exactly when some entry is, and then it times the count of numeric entries is their sum |
| Js.MeanWithin | comparing_categories.js:37 | the mean of numbers within a range lies within it |
| ComparingCategories.WorldBars | comparing_categories.js:7-42 | no chart exactly when no World row of 2022-2024 exists; otherwise one bar per header column other than Entity, Code and Year, renamed by the map or kept, valued by `d3.mean` of the column over the selected rows |
| ComparingCategories.WorldBarRange | comparing_categories.js:35-42 | a bar that is a number lies between the least and the greatest number of its column |
| ComparingCategories.PivotFind | comparing_categories.js:123-138 | searching the filtered rows finds the same row as searching all rows for a listed country and year |
| ComparingCategories.PivotValueFirst | comparing_categories.js:128-140 | a pair without a row is 0; otherwise the first row of the pair decides its value |
| ComparingCategories.Pivot | comparing_categories.js:123-145 | one record per listed country in list order, with a value for each of 2022, 2023 and 2024: the per-capita value of the first row of that pair, or 0 when there is none |
| ComparingCategories.ParseHeatRow | comparing_categories.js:257-271 | a row is kept exactly when its CO2 cell is a number and its trimmed Entity and Year are non-empty, and then it carries those trimmed texts and the number |
| ComparingCategories.FirstPair | comparing_categories.js:295 | the first cell of the pair, none exactly when the data holds no such cell |
| ComparingCategories.CellsFromShape | comparing_categories.js:294-296 | every cell of one country's run is that country's first cell for one of the years |
| ComparingCategories.CellsFromOrder | comparing_categories.js:294-296 | one country's cells follow the order of the years |
| ComparingCategories.CellsFromCover | comparing_categories.js:294-296 | a year has a cell in the run exactly when the data has that pair |
| ComparingCategories.CellsOfShape | comparing_categories.js:293-297 | every cell is a listed country's first cell for a listed year |
| ComparingCategories.CellsOfOrder | comparing_categories.js:293-297 | the cells come country by country, then year by year |
| ComparingCategories.CellsOfCover | comparing_categories.js:293-297 | a listed pair has a cell exactly when the data has it |
| ComparingCategories.CellsOfPair | comparing_categories.js:293-297 | one listed pair has a cell exactly when some data row has it |
| ComparingCategories.ParsedRows | comparing_categories.js:257-271 | the parsed cells are exactly the cells of the rows the row function keeps |
| ComparingCategories.FirstPairFiltered | comparing_categories.js:288-295 | filtering to the listed countries and years leaves the first cell of a listed pair unchanged |
| ComparingCategories.Heatmap | comparing_categories.js:257-297 | at most one cell for each of the listed countries times the listed years |
| ComparingCategories.HeatmapUnique | comparing_categories.js:288-297 | no two heatmap cells share a country and a year |
| ComparingCategories.CountryMajorUnique | comparing_categories.js:293-297 | cells ordered by country, then by year, repeat no (country, year) pair |
| ComparingCategories.HeatmapOrder | comparing_categories.js:293-297 | the heatmap cells are ordered by country in list order, then by year |
| ComparingCategories.HeatmapFirst | comparing_categories.js:288-297 | each heatmap cell is a listed pair and the first parsed cell of that pair |
| ComparingCategories.HeatmapCover | comparing_categories.js:288-297 | a listed pair has a heatmap cell exactly when some parsed row has that pair |
| ComparingCategories.AccOfStep | comparing_categories.js:468-474 | a row of the country adds each numeric cell to the sum and 1 to the count, and other rows change nothing |
| ComparingCategories.ZeroAccs | comparing_categories.js:462-467 | a new country's entry starts at sum 0 and count 0 for every column |
| ComparingCategories.AddCells | comparing_categories.js:468-474 | each column's entry gains the row's cell when it is a number, and only those columns are kept |
| ComparingCategories.AggStep | comparing_categories.js:460-475 | one pass of the loop keeps `agg` describing exactly the rows seen so far |
| ComparingCategories.Accumulate | comparing_categories.js:459-475 | afterwards `agg` has an entry for exactly the countries seen, holding for every column the sum and count of that country's numeric cells |
| ComparingCategories.MeanOfAcc | comparing_categories.js:482 | the mean read off the sum and count is `d3.mean` of the country's numeric cells, 0 where there is none |
| ComparingCategories.SeenIff | comparing_categories.js:459-481 | a country has an `agg` entry exactly when it has a filtered row |
| ComparingCategories.CountryMeans | comparing_categories.js:478-486 | a record per listed country in order, or a failure at the first country without a row when there is a column to read |
| ComparingCategories.StackedMeans | comparing_categories.js:450-486 | fails exactly when no row is selected; otherwise the outcome of the per-country means |
| ComparingCategories.AfterFirst | comparing_categories.js:492-494 | the text after the first separator, up to the next one or the end |
| ComparingCategories.Capitalize | comparing_categories.js:496 | same length, the first character upper-cased and the rest unchanged |
| ComparingCategories.ExtractLabel | comparing_categories.js:488-499 | "Other renewables" for the other-renewables column; the name itself without "from"; otherwise exactly `LabelFrom`: the non-blank span of the name between the end of the first "from" and the first "(" before the next "from" (or that next "from" or the end), with a capital initial, empty exactly when that stretch is blank, holding no "(" and ending in no blank |
| ComparingCategories.FromLabel | comparing_categories.js:492-496 | the label computed from a slice by trimming, cutting at "(", trimming again and capitalising is the capitalised non-blank span `LabelIn` describes, holds no "(" and ends in no blank |
| ComparingCategories.LabelAt | comparing_categories.js:494-495 | `split("(")[0].trim()` of the trimmed slice after "from" is a span of the name whose surroundings up to the first "(" are blank |
| ComparingCategories.LabelStop | comparing_categories.js:494-495 | the label of a stretch ends at the first "(" of its trimmed part, or at the stretch's end when that part has none, with only blanks between the two |
| ComparingCategories.WidenSpan | comparing_categories.js:494-495 | a trimmed span with blank text on either side is the trimmed span of the wider stretch, empty exactly when that stretch is blank |
| ComparingCategories.SplitSpan | comparing_categories.js:495 | `split("(")[0]` of a slice runs up to the slice's first "(", or its end |
| ComparingCategories.SplitParen | comparing_categories.js:495 | `split("(")[0]` is the prefix before the first "(", or the whole text when there is none |
| ComparingCategories.TrimSpan | comparing_categories.js:494-495 | `trim()` of a slice is a span with blank characters exactly around it and non-blank ends |
| ComparingCategories.TrimAt | comparing_categories.js:494 | `trim()` keeps the text between the leading and trailing white space |
| ComparingCategories.CutAfterTrim | comparing_categories.js:494-495 | cutting the trimmed slice at its first "(" and trimming again ends the label at the first "(" of the untrimmed slice, or at the slice's end, and is empty exactly when the stretch before that end is blank |
| ComparingCategories.BlankSpan | comparing_categories.js:495-496 | the trimmed label is empty exactly when the stretch it comes from is all blank |
| ComparingCategories.SpanClean | comparing_categories.js:495-496 | the capitalised label holds no "(", keeps its length and ends in no blank |
| ComparingCategories.CountryTotals | comparing_categories.js:643-659 | the loops reach the coal, oil and gas sums and the nine-column total of the country's numeric cells |
| ComparingCategories.StatsFor | comparing_categories.js:642-672 | one statistic per country, in order, from that country's rows |
| ComparingCategories.CountryStats | comparing_categories.js:637-672 | one statistic per listed country, in list order, from its 2022-2024 rows |
| ComparingCategories.TotalsCover | comparing_categories.js:646-659 | with no negative cells the fossil sums are non-negative and together at most the total |
| ComparingCategories.PctShares | comparing_categories.js:661-663 | shares of non-negative parts of a total are percentages adding up to at most 100 |
| ComparingCategories.WaffleShares | comparing_categories.js:642-672 | with no negative cells each fossil share is a percentage and the three add up to at most 100 |
| ComparingCategories.WaffleCells | comparing_categories.js:724-742 | a hundred cells, cell i at row i / 10 and column i % 10, coal before `c`, then oil, then gas, and empty after |
| ComparingCategories.WaffleBands | comparing_categories.js:728-742 | the waffle shows `c` coal, `o` oil and `g` gas cells, cut off at 100, and the rest empty |
| ComparingCategories.RoundedCounts | comparing_categories.js:724-726 | rounded shares give counts in 0..100 adding up to at most 101 |
| ComparingCategories.RoundedOvershoot | comparing_categories.js:724-742 | shares of 33.5, 33.5 and 33 percent give 101 cells, and the gas band then shows only 32 |
| ComparingCategories.FirstOfPair | comparing_categories.js:128-140 | the `find` for a pair returns the first row that has that country and year |
| ComparingCategories.PivotValueNone | comparing_categories.js:128-140 | a listed country and recent year without any row pivot to 0 |
| ComparingCategories.CellsFromYear | comparing_categories.js:293-297 | a year of the list has a cell in a country's run exactly when some data row has that country and year |
| ComparingCategories.CountryMajorAppend | comparing_categories.js:293-297 | one country's cells in year order, followed by cells of countries later in the list, stay in country-then-year order |
| ComparingCategories.AddRow | comparing_categories.js:647-658 | one row adds its numeric coal, oil and gas cells to their sums and its nine-column total to the overall total |
| ComparingCategories.SumCells | comparing_categories.js:655-658 | the inner loop reaches the sum of the row's numeric cells over the given columns |
| ComparingCategories.TotalsOfLast | comparing_categories.js:643-659 | the totals over a country's rows are those over all but the last plus the last row's cells and total |
| ElectricitySankey.SourceValue | visualizing_sankey.js:50 | 0 for a missing, blank or digit-free cell and for a digit-bearing cell that unary `+` reads as NaN ("1,234", "12 GW"); otherwise the number unary `+` reads, so a cell reading 0 gives 0 |
| ElectricitySankey.Coerced | visualizing_sankey.js:47-52 | a coerced row has `+Year` and exactly nine source values, one per `SOURCE_KEYS` column |
| ElectricitySankey.CoerceRows | visualizing_sankey.js:47-52 | the load-time loop coerces every row, in order |
| ElectricitySankey.YearRowsEmpty | visualizing_sankey.js:66-76 | the selection is empty exactly when no row is of the year and a listed country |
| ElectricitySankey.WithTotals | visualizing_sankey.js:68-70 | each row of the year gets its `totalProduction`, in order |
| ElectricitySankey.SetTotals | visualizing_sankey.js:68-70 | the loop writes `totalProduction` into every selected row |
| ElectricitySankey.Ranked | visualizing_sankey.js:66-72 | the selected rows with their totals, as a permutation sorted by total descending |
| ElectricitySankey.RankedRows | visualizing_sankey.js:66-72 | the ranked rows are exactly the rows of the year's listed countries, each with its total |
| ElectricitySankey.SankeyNodes | visualizing_sankey.js:82-100 | 1 + n + 9 nodes: the root at 0, the countries in rank order at 1..n, then the nine sources in `SOURCE_KEYS` order |
| ElectricitySankey.Pairs | visualizing_sankey.js:93 | one `[Entity, i + 1]` pair per selected row |
| ElectricitySankey.CountryIndices | visualizing_sankey.js:93 | `countryIndices` maps every selected country to a country node |
| ElectricitySankey.CountryIndexNamed | visualizing_sankey.js:93-113 | the node a row's links use is a country node of the same name, the one of that country's last row |
| ElectricitySankey.CountryIndexOwn | visualizing_sankey.js:93-113 | with one row per country each row's links leave from its own node |
| ElectricitySankey.RootLinks | visualizing_sankey.js:104-110 | one root link per selected row, to its country node, carrying its total |
| ElectricitySankey.SourceLinkIff | visualizing_sankey.js:114-123 | a country links to source j exactly when it produced more than 0.1 from it, carrying that amount |
| ElectricitySankey.AllSourceLinksIff | visualizing_sankey.js:112-124 | the source links are exactly the (country, source) pairs above 0.1, each carrying the amount |
| ElectricitySankey.LinksInRange | visualizing_sankey.js:104-124 | every link goes from the root to a country node or from a country node to a source node |
| ElectricitySankey.LinkCategories | visualizing_sankey.js:104-124 | no link leaves a source node and none enters the root |
| ElectricitySankey.RootOutflow | visualizing_sankey.js:104-110 | the root's outflow is the sum of the totals of the selected countries |
| ElectricitySankey.SourceLinkExists | visualizing_sankey.js:112-124 | a country produced more than 0.1 from a source exactly when the link from its node to that source's node exists, carrying the amount |
| ElectricitySankey.PushNodes | visualizing_sankey.js:82-100 | the `push` loops produce exactly the node list |
| ElectricitySankey.PushRootLinks | visualizing_sankey.js:104-110 | the first link loop pushes exactly the root links |
| ElectricitySankey.PushSourceLinks | visualizing_sankey.js:114-123 | the inner loop appends one country's links to the sources above 0.1, in source order |
| ElectricitySankey.PushLinks | visualizing_sankey.js:104-124 | the link loops produce the root links followed by each country's source links in rank order |
| ElectricitySankey.BuildSankey | visualizing_sankey.js:54-124 | a message naming the year exactly when no listed country has a row for it; otherwise the graph of the ranked rows |
| ElectricitySankey.ClickTwice | visualizing_sankey.js:179-187 | two clicks on a node leave nothing active, and a click on another node moves the selection there |
| ElectricitySankey.SankeyView.constructor | visualizing_sankey.js:58 | each drawing starts without an active node |
| ElectricitySankey.SankeyView.ClickNode | visualizing_sankey.js:179-187 | clicking the active node resets; clicking another makes it active |
| ElectricitySankey.SankeyView.ResetView | visualizing_sankey.js:158-202 | a background click leaves no active node |
| ElectricitySankey.SankeyView.StyleOf | visualizing_sankey.js:158-197 | without an active node every link is its gradient at 0.5; otherwise exactly the links touching it keep the gradient at 0.8 and the others turn grey at 0.1 |
| ElectricitySankey.WithTotalsMembers | visualizing_sankey.js:66-72 | a row is among the totalled rows exactly when it is some row carrying its own total |
| ElectricitySankey.SourceLinkPresent | visualizing_sankey.js:112-124 | a source a country produced more than 0.1 from has a link from the country's node to the source's node carrying the amount |
| ElectricitySankey.SourceLinkAbove | visualizing_sankey.js:112-124 | a link from a country's node to a source's node means the country produced more than 0.1 from it |
| EnergyFlow.Range | visualizing_networks.js:20 | `d3.range(lo, hi)`: the integers from lo up to but excluding hi, in order, none when hi is not above lo |
| EnergyFlow.YearsMatchSlider | visualizing_networks.js:20 | the 45 valid years run from 1980 to 2024, the slider's min and max (with lines 178-181) |
| EnergyFlow.Rollup | visualizing_networks.js:34-67 | one entry per `+Year` some row carries, holding the reduction of exactly that year's rows |
| EnergyFlow.SourceSums | visualizing_networks.js:55-65 | one world sum per electricity source, nine in all |
| EnergyFlow.YearValue | visualizing_networks.js:43-78 | the `get` with a 0 fallback of a rollup of column sums is the sum of that year's rows, 0 when the year has none |
| EnergyFlow.Positions | visualizing_networks.js:102 | each node name paired with its index |
| EnergyFlow.NodeIndexPositions | visualizing_networks.js:102 | with distinct names `idx` maps each node's name to its own index |
| EnergyFlow.NodeNamesDistinct | visualizing_networks.js:87-99 | the eleven node names are distinct |
| EnergyFlow.BuildFlow | visualizing_networks.js:72-125 | nothing is drawn exactly when the year has no electricity entry; otherwise the eleven nodes, one link from each source to "Total Energy Use" with its sum, and one from there to "CO₂ Emissions" with the year's energy use |
| EnergyFlow.FlowLinks | visualizing_networks.js:53-67 | each drawn link carries the world sum of its column over the year's rows, the last one the energy use per capita sum (with lines 77, 107-120) |
| EnergyFlow.NodeRoles | visualizing_networks.js:97-120 | node 9 is "Total Energy Use" and node 10 "CO₂ Emissions" |
| EnergyFlow.Co2Unused | visualizing_networks.js:78-125 | the graph does not depend on the CO₂ sums |
| EnergyFlow.FlowGraph | visualizing_networks.js:86-125 | the layout gets the eleven nodes and ten links: each source into "Total Energy Use" with its sum, then that node into "CO₂ Emissions" with the energy use |
| OilNetwork.ManualLocations | visualizing_network.js:68-81 | the four manual locations are exactly the listed keys, all of them European codes |
| OilNetwork.NamePairs | visualizing_network.js:147 | one `[id, name]` pair per European feature, in order |
| OilNetwork.BuildCentroids | visualizing_network.js:142-162 | after both loops `centroids` is the second pass applied to the first over the European features, and `countryNames` keeps each code's last feature name |
| OilNetwork.PlaceFeature | visualizing_network.js:148-154 | one feature: a manual country is placed at its projected location when that projects, any other at its centroid when both coordinates are numbers, nothing otherwise |
| OilNetwork.PlaceManual | visualizing_network.js:157-162 | the second loop over the manual locations, in key order |
| OilNetwork.FirstPassOk | visualizing_network.js:145-155 | the first pass keeps the key order and the entries of `centroids` in step |
| OilNetwork.FirstPassManual | visualizing_network.js:148-150 | after the first pass a manual country is placed exactly when the map has its shape and its location projects, and it sits there |
| OilNetwork.FirstPassComputed | visualizing_network.js:151-154 | after the first pass any other country is placed exactly when one of its features has a usable centroid, and it sits at the last such centroid |
| OilNetwork.SecondPassEffect | visualizing_network.js:157-162 | the second pass places a listed manual country that is still unplaced when its location projects, and changes nothing else |
| OilNetwork.Centroids | visualizing_network.js:142-162 | only European codes are placed; a manual country exactly when its location projects, and there; any other exactly when one of its features has a usable centroid |
| OilNetwork.KeptFlow | visualizing_network.js:168-175 | a flow becomes a link iff it is an export of 2015 whose reporter and partner both have centroids; the link carries both positions, both codes and `+Trade Value` |
| OilNetwork.CollectFlows | visualizing_network.js:164-180 | `links` holds the kept flows in order, and `nodeTotals` adds each link's value to both of its ends |
| OilNetwork.TotalsTwice | visualizing_network.js:176-177 | with numeric values the totals sum to twice the total link value |
| OilNetwork.TotalsKeys | visualizing_network.js:176-177 | a country has a total exactly when some link starts or ends there |
| OilNetwork.MaxLinkValue | visualizing_network.js:182-183 | the largest positive link value, 1 when there is none; always positive |
| OilNetwork.MaxTotalValue | visualizing_network.js:184-185 | never 0; 1 when no total is a number; for any total no other number exceeds (`IsMaxTotal`) the result is that total, or 1 when it is 0 |
| OilNetwork.Unsorted | visualizing_network.js:237-238 | one node per key of `centroids`, in key order, with the name (the code when there is none), the position and the total (0 when none) |
| OilNetwork.NodesData | visualizing_network.js:237-239 | `nodesData` is a permutation of the nodes ordered by total trade descending |
| OilNetwork.NodesOnePerCountry | visualizing_network.js:237-239 | each placed country has exactly one node, and every node carries its own country's data |
| OilNetwork.NetworkView.constructor | visualizing_network.js:66 | nothing is selected at first |
| OilNetwork.NetworkView.ResetSelection | visualizing_network.js:83-86 | a background click clears the selection |
| OilNetwork.NetworkView.ClickNode | visualizing_network.js:254-261 | clicking the selected node deselects it; clicking another selects it |
| OilNetwork.NetworkView.StrokeColor | visualizing_network.js:88-103 | without a selection red under the pointer and faint blue otherwise; with one, red exactly for the selected country's exports and dim blue exactly for the others, hover ignored |
| OilNetwork.NetworkView.NodeLook | visualizing_network.js:116-120 | a node is drawn highlighted exactly when it is the selected one, and plainly otherwise |
| OilNetwork.NetworkView.HighlightedOnce | visualizing_network.js:116-120 | when a placed country is selected exactly one drawn node is highlighted and all others are plain; with no selection, or an unplaced one, every node is plain |
| OilNetwork.VisitFeatures | visualizing_network.js:145-155 | the first loop reaches the first pass over the features and keeps each code's last name |
| OilNetwork.NamePairsLast | visualizing_network.js:147 | a later feature's name replaces an earlier one's of the same code |
| OilNetwork.PlaceOne | visualizing_network.js:157-162 | one visit of the second loop adds the projected location of an unplaced listed manual country and nothing else |
| OilNetwork.PlaceEach | visualizing_network.js:157-162 | the second loop over the given manual countries reaches the second pass over them, in order |
| OilNetwork.SecondPassStepEffect | visualizing_network.js:157-162 | one visit places its country when unplaced and its location projects, keeps the key order and entries in step, and changes nothing else |
| OilNetwork.SecondPassLast | visualizing_network.js:157-162 | the effect of the visits so far, followed by one more visit, is that of a run visiting one more country |
| OilNetwork.PlacementThen | visualizing_network.js:157-162 | two runs of visits in a row place a country as one run that visits it when either does |
| OilNetwork.NodeIdsDistinct | visualizing_network.js:237-239 | no two nodes share a country code |
| OilNetwork.NodesArePlaced | visualizing_network.js:237-239 | every node is the node of a placed country, built from its own data |
| OilNetwork.PlacedHasNode | visualizing_network.js:237-239 | every placed country has a node |
| Distributions.V | visualizing_distributions.js:24 | a missing row reads as 0, and only a present, non-blank cell can read as NaN |
| Distributions.VIsPlus | visualizing_distributions.js:24 | on a present row `v` is unary `+` of the cell, except that a missing cell is 0 |
| Distributions.BinsPartition | visualizing_distributions.js:26-28 | a year lies in some bin exactly when it is in 2000..2024, and then in only one |
| Distributions.BinLabels | visualizing_distributions.js:29 | the five band labels are "2000-2004" to "2020-2024" |
| Distributions.Keyed | visualizing_distributions.js:36 | one key per selected row joining its Entity and Year text with a bar character, in order |
| Distributions.IndexRows | visualizing_distributions.js:35-36 | the `forEach` leaves the last row written under each key |
| Distributions.RowKeyMatch | visualizing_distributions.js:36-42 | a selected row's key is the lookup key of a country and year exactly when its Entity is that country and its Year text is the year written plainly |
| Distributions.ByCYLookup | visualizing_distributions.js:31-42 | the lookup finds a row exactly when some selected row has that Entity and Year text, and then it is the last such row |
| Distributions.SumBin | visualizing_distributions.js:40-46 | the year loop adds the renewable and the non-renewable sums of every year of the bin that has a row |
| Distributions.Shares | visualizing_distributions.js:47-53 | both bars are 0 unless the total is positive; otherwise they are the two sums over the total, the renewable one negated |
| Distributions.CountryPanel | visualizing_distributions.js:39-54 | one entry per bin, in bin order |
| Distributions.PanelFor | visualizing_distributions.js:38-55 | one row of entries per country, in order |
| Distributions.PanelData | visualizing_distributions.js:31-55 | the pyramid data of the ten countries built from the indexed selected rows |
| Distributions.ColumnsSumNonNegative | visualizing_distributions.js:44-45 | non-negative cells give a non-negative column sum |
| Distributions.BinSumsNonNegative | visualizing_distributions.js:40-46 | non-negative cells give non-negative bin sums |
| Distributions.PanelShares | visualizing_distributions.js:47-53 | with non-negative data the renewable bar lies in [-1, 0] and the non-renewable one in [0, 1], and a non-empty bin spans exactly 1 |
| Distributions.EmptyBin | visualizing_distributions.js:42-43 | years without a row add nothing |
| Distributions.RidgeData | visualizing_distributions.js:159-162 | the records of exactly the three countries' rows whose year and value are numbers, one record per such row, in row order (positionally against the filtered rows) |
| Distributions.DecadeOf | visualizing_distributions.js:169 | a multiple of ten at most the year and within ten of it |
| Distributions.Decades | visualizing_distributions.js:170 | the distinct decades of the data in strictly ascending order |
| Distributions.DecadeValues | visualizing_distributions.js:185-215 | a country's value list for a decade is non-empty exactly when it has a record in that decade |
| Distributions.RidgeDecades | visualizing_distributions.js:164-170 | the chart is not drawn exactly when no record survives |
| Distributions.DecadeDrawn | visualizing_distributions.js:212-216 | every listed decade has values for some country, so the early return never fires |
| Distributions.XDomain | visualizing_distributions.js:172-175 | every value lies strictly inside the domain; with lo and hi the least and greatest value, the domain is centred on the range and is 2 wide when lo == hi, else 1.1 × (hi − lo) wide, i.e. `[lo − pad, hi + pad]` with `pad = (hi − lo) * 0.05 \|\| 1` |
| Distributions.CO2Column | visualizing_distributions.js:307-319 | the first candidate that is a column of the first row; none when there is no row or no such column |
| Distributions.BoxData | visualizing_distributions.js:327-334 | the records of exactly the listed-country rows from 2000 on whose cleaned value is a number, one record per such row, in row order (positionally against the filtered rows) |
| Distributions.ValuesOf | visualizing_distributions.js:338 | the values of a group, in group order |
| Distributions.QuantileIndex | visualizing_distributions.js:339-341 | the lower of the two positions around `(n - 1) p` |
| Distributions.Quantile | visualizing_distributions.js:339-341 | on sorted values the quantile lies between the two neighbouring values and within the range |
| Distributions.QuantileMonotone | visualizing_distributions.js:339-341 | a larger `p` gives a quantile at least as large, so q1, the median and q3 are ordered |
| Distributions.BoxOf | visualizing_distributions.js:337-349 | the box's values are the group's values sorted ascending, as a permutation |
| Distributions.LowWhiskerLeast | visualizing_distributions.js:345 | the low whisker is the least value at or above the fence, and below it lie exactly the values below the fence |
| Distributions.HighWhiskerGreatest | visualizing_distributions.js:346 | the high whisker is the greatest value at or below the fence, and above it lie exactly the values above the fence |
| Distributions.BoxQuartiles | visualizing_distributions.js:338-341 | q1, the median and q3 are ordered and within the values' range |
| Distributions.BoxWhiskers | visualizing_distributions.js:342-346 | the whiskers are the most extreme values inside the fences, so the `??` fallbacks never apply |
| Distributions.BoxValues | visualizing_distributions.js:338 | every point's value is among its box's values |
| Distributions.BoxWhiskerSides | visualizing_distributions.js:343-346 | below the low whisker means below the low fence and above the high whisker above the high fence |
| Distributions.BoxOutliers | visualizing_distributions.js:343-347 | a point is an outlier exactly when it lies outside the fences |
| Distributions.BoxInliers | visualizing_distributions.js:345-347 | every point that is not an outlier lies between the whiskers |
| Distributions.Boxes | visualizing_distributions.js:336-349 | one box per country group, in first-appearance order, box i being `BoxOf` the i-th group's country and points |
| Distributions.BoxPlot | visualizing_distributions.js:314-350 | no chart exactly when no column is found; otherwise the boxes as a permutation sorted by median |
| Distributions.BinEntry | visualizing_distributions.js:39-53 | one bin's entry is the country's renewable and non-renewable shares over the bin's years |
| ElectricityMix.ColumnsPartition | visualizing_spatial/visualizing_symbolic.js:21-74 | each of the nine `COLS` is summed into exactly one of the fossil and the clean share |
| ElectricityMix.MixTotal | visualizing_spatial/visualizing_symbolic.js:68-74 | fossil plus clean is the sum over all nine sources, each read as a number or 0 |
| ElectricityMix.Data | visualizing_spatial/visualizing_symbolic.js:55-81 | `data` holds the fossil/clean split of each 2020 row, one element per row, in row order |
| ElectricityMix.DataNames | visualizing_spatial/visualizing_symbolic.js:55-81 | some element of `data` names a country exactly when some 2020 row does |
| ElectricityMix.LastDataRow | visualizing_spatial/visualizing_symbolic.js:55-81 | the last element naming a country is the split of the last 2020 row naming it |
| ElectricityMix.ByCountryOfRows | visualizing_spatial/visualizing_symbolic.js:55-83 | a country is in `valueByCountry` exactly when some 2020 row names it, and it maps to the split of the last such row |
| ElectricityMix.CountryPairs | visualizing_spatial/visualizing_symbolic.js:83 | one `[country, element]` pair per element, in order |
| ElectricityMix.ByCountryLast | visualizing_spatial/visualizing_symbolic.js:83 | a country is in `valueByCountry` iff some element names it, and it maps to the element at the last position that names it |
| SymbolicMap.AllValues | visualizing_spatial/visualizing_symbolic.js:85-87 | `allValues` lists the fossil and the clean share of every element, in order |
| SymbolicMap.MaxVal | visualizing_spatial/visualizing_symbolic.js:88 | `maxVal` is undefined exactly for empty data; otherwise it is one of the shares and no share exceeds it |
| SymbolicMap.Triangles | visualizing_spatial/visualizing_symbolic.js:172-181 | two triangles per feature, one per source in `SOURCES` order with its index; the value is the country's share, NaN when the country is absent |
| SymbolicMap.TrianglesOfCountry | visualizing_spatial/visualizing_symbolic.js:55-88 | a country's triangles are drawn exactly when some 2020 row names it, and they show the fossil and clean shares of the last 2020 row naming it (with lines 172-186) |
| BubbleMap.AllClean | visualizing_spatial/visualizing_bubble.js:104 | `allClean` lists the clean share of every element, in order |
| BubbleMap.MaxClean | visualizing_spatial/visualizing_bubble.js:104-105 | `maxVal` is undefined exactly for empty data; otherwise it is one of the clean shares and none exceeds it |
| BubbleMap.MaxCleanIgnoresFossil | visualizing_spatial/visualizing_bubble.js:104-105 | the radius scale's maximum depends on the clean shares only |
| BubbleMap.Radius | visualizing_spatial/visualizing_bubble.js:184-189 | 0 for a country absent from `valueByCountry`, otherwise the scaled clean share |
| BubbleMap.RadiusOfCountry | visualizing_spatial/visualizing_bubble.js:74-105 | a circle has a scaled radius exactly when some 2020 row names its country, and the radius is the scaled clean share of the last 2020 row naming it; radius 0 otherwise (with lines 184-189) |
| ElectricityMix.MixesOf | visualizing_spatial/visualizing_symbolic.js:55-81 | one element per selected row, in order, each the split of its own row |
| Cartogram.LatestYear | visualizing_spatial/visualizing_cartogram.js:44-45 | the latest year is absent exactly when no row's year is a number; otherwise it is the year of some row and no numeric year exceeds it |
| Cartogram.LatestRows | visualizing_spatial/visualizing_cartogram.js:44-46 | a row is kept exactly when its year is a number and no row has a later one |
| Cartogram.AnnotateRows | visualizing_spatial/visualizing_cartogram.js:48-51 | every kept row, in order, gets its energy and its year as numbers |
| Cartogram.FooterYear | visualizing_spatial/visualizing_cartogram.js:265 | the footer's `d3.max` over the kept rows' years is the latest year whenever a row was kept |
| Cartogram.TargetsListed | visualizing_spatial/visualizing_cartogram.js:77-108 | every value of `nameMapping` is one of the thirteen map names |
| Cartogram.NameMappingIdempotent | visualizing_spatial/visualizing_cartogram.js:77-108 | mapping a name twice changes nothing: every target is either no key or maps to itself |
| Cartogram.MappedName | visualizing_spatial/visualizing_cartogram.js:111 | the mapped name where the table has one, the Entity itself otherwise (the word "undefined" for a missing Entity) |
| Cartogram.MappedNameStable | visualizing_spatial/visualizing_cartogram.js:111 | a row already named by its mapped name is filed under the same key |
| Cartogram.IndexEnergy | visualizing_spatial/visualizing_cartogram.js:110-114 | the loop writes each row's energy under its mapped name and then under its code, in row order |
| Cartogram.EnergyLookup | visualizing_spatial/visualizing_cartogram.js:110-114 | a key holds a value iff some row's mapped name or code is that key, and the value is the energy of the last such row |
| Cartogram.Fill | visualizing_spatial/visualizing_cartogram.js:142-151 | grey exactly when the value is falsy, otherwise the colour of the band holding it, the bands split with strict `>` at 50000, 20000, 10000 and 5000 |
| Cartogram.BandsDisjoint | visualizing_spatial/visualizing_cartogram.js:146-150 | a value lies in only one band, and no band is grey |
| Cartogram.FillMonotone | visualizing_spatial/visualizing_cartogram.js:146-150 | a larger value is never in a lighter band |
| Cartogram.ScaleInput | visualizing_spatial/visualizing_cartogram.js:155 | the size-scale input is the value when it is truthy and 1000 otherwise, never 0 |
| Cartogram.DigitRun | visualizing_spatial/visualizing_cartogram.js:288 | the run of digits at a position, as far as the lookahead `(\d{3})+(?!\d)` sees |
| Cartogram.CommasOnlyInsert | visualizing_spatial/visualizing_cartogram.js:288 | the replacement only inserts commas: removing them gives back the input |
| Cartogram.FormatNumber | visualizing_spatial/visualizing_cartogram.js:286-289 | "N/A" for a falsy number; otherwise `CommasFrom` of the text (a comma at each `CommaAt` match), which only inserts commas, and on a string of digits is three-digit grouping from the right (`Grouped`) |
| Cartogram.CommaAtDigits | visualizing_spatial/visualizing_cartogram.js:288 | in a string of digits the pattern matches exactly at the inner positions whose distance from the end is a multiple of 3 |
| Cartogram.CommasGroupThousands | visualizing_spatial/visualizing_cartogram.js:288 | for a whole number the replacement is the standard grouping by thousands from the right |
| Cartogram.EnergyText | visualizing_spatial/visualizing_cartogram.js:162-170 | the tooltip line says "Dati non disponibili" when the value is falsy, and otherwise the formatted figure and the unit |
| Cartogram.IsLatestYear | visualizing_spatial/visualizing_cartogram.js:44-46 | a row carries the latest year exactly when its year is a number and no row's numeric year is later |
| Cartogram.RecordOfLatest | visualizing_spatial/visualizing_cartogram.js:44-46 | every kept record carries the latest year, which then exists |
| Cartogram.CommasOfDigits | visualizing_spatial/visualizing_cartogram.js:288 | on a string of digits the comma replacement inserts a comma before each digit other than the first from which a multiple of three digits runs to the end |
| EmissionsOverTime.PointOf | visualizing_temporal.js:14-21 | a row yields a point iff its Entity is one of the five countries, its Year reads as a number of at least 1900 and its value as a number; the point carries the country, `+Year` and the value |
| EmissionsOverTime.Data | visualizing_temporal.js:14-21 | `data` holds the point of each row passing both filters, one per such row, in row order, and nothing else |
| EmissionsOverTime.DataInRange | visualizing_temporal.js:14-21 | every point of `data` is of a listed country and from 1900 on |
| EmissionsOverTime.SeriesOf | visualizing_temporal.js:24-27 | a group's series keeps its country, holds a permutation of its points sorted by year, and carries their mean |
| EmissionsOverTime.SumDeviations | visualizing_temporal.js:26 | the deviations from `m` sum to the total less `m` once per point |
| EmissionsOverTime.MeanValue | visualizing_temporal.js:26 | `d3.mean` over a non-empty group: the deviations of the values from the result cancel out, which characterises the mean |
| EmissionsOverTime.Unsorted | visualizing_temporal.js:23-28 | one series per distinct country, in order of first appearance, each built from that country's group |
| EmissionsOverTime.ByCountry | visualizing_temporal.js:23-29 | `byCountry` is a permutation of the series, ordered by mean descending |
| EmissionsOverTime.UnsortedCountries | visualizing_temporal.js:23 | the groups belong to pairwise different countries |
| EmissionsOverTime.SeriesMembers | visualizing_temporal.js:23-27 | a series holds exactly the points of its country, in year order, with their mean |
| EmissionsOverTime.ByCountryDistinct | visualizing_temporal.js:23-29 | sorting by mean keeps the countries pairwise different |
| EmissionsOverTime.SeriesContents | visualizing_temporal.js:23-29 | each series of `byCountry` is the only one of its country and holds exactly that country's points of `data`, sorted by year |
| EmissionsOverTime.SeriesMean | visualizing_temporal.js:23-29 | each series of `byCountry` carries the mean of its own values |
| EmissionsOverTime.Flip | visualizing_temporal.js:139-145 | toggling: `x` changes membership and every other element keeps it |
| EmissionsOverTime.FlipTwice | visualizing_temporal.js:139-145 | two clicks on the same entry restore the selection |
| EmissionsOverTime.Highlight.constructor | visualizing_temporal.js:90 | the selection starts empty |
| EmissionsOverTime.Highlight.Click | visualizing_temporal.js:139-145 | a click toggles that country and keeps the selection within the listed countries |
| EmissionsOverTime.Highlight.AreaOpacity | visualizing_temporal.js:107-119 | 0.75 with nothing picked; otherwise 0.9 exactly for picked countries and 0.05 exactly for the rest |
| EmissionsOverTime.Highlight.LegendOpacity | visualizing_temporal.js:114-122 | 1 with nothing picked; otherwise 1 exactly for picked entries and 0.3 exactly for the rest |
| EmissionsOverTime.Highlight.CircleOpacity | visualizing_temporal.js:170-174 | 1 with nothing picked; otherwise 1 exactly for picked circles and 0.15 exactly for the rest |
| EmissionsOverTime.Highlight.PickedStandsOut | visualizing_temporal.js:107-174 | once something is picked, a picked area is more opaque than the default and an unpicked one less; a picked circle is more opaque than an unpicked one |
| Globe3D.ToNum | visualizing_spatial/visualizing_3D.js:18-21 | a missing or empty cell is NaN; other text with no numeric character reads as 0, and text without a digit as NaN |
| Globe3D.ToNumAgainstPlus | visualizing_spatial/visualizing_3D.js:18-21 | this `toNum` differs from the plain strip-then-`+` conversion only on the empty cell, which it reads as NaN instead of 0 |
| Globe3D.ReadingOf | visualizing_spatial/visualizing_3D.js:25-33 | a row adds to the sums iff its Year is 2020, its trimmed Entity is not empty and its value is a number; the name it adds under is trimmed |
| Globe3D.TotalsPerName | visualizing_spatial/visualizing_3D.js:23-36 | a name has an entry iff some contributing row carries it, and the entry is the sum of the values of all those rows |
| Globe3D.ReadingsLast | visualizing_spatial/visualizing_3D.js:25-33 | the rows' readings are those of all rows but the last, then the last row's reading if it has one |
| Globe3D.SumsOfReadings | visualizing_spatial/visualizing_3D.js:25-36 | running the `forEach` row by row gives the per-name sums of the readings |
| Globe3D.AddReading | visualizing_spatial/visualizing_3D.js:34-35 | the previous sum, 0 when there is none, plus the value is written back under the name, nothing else changes |
| Globe3D.SumByName | visualizing_spatial/visualizing_3D.js:23-36 | after the loop `valueByCountry` is the per-name sum of the contributing rows |
| Globe3D.Lookup | visualizing_spatial/visualizing_3D.js:69-72 | the polygon's own name wins when its sum is a non-zero number; otherwise the `NAME_FIX` alias's sum, if there is one; otherwise no number |
| Globe3D.ZeroReadsAsMissing | visualizing_spatial/visualizing_3D.js:71-72 | a stored 0 without an alias reads as missing, because the logical or skips it |
| Globe3D.CapColor | visualizing_spatial/visualizing_3D.js:68-76 | grey when the lookup is not a number, otherwise the colour scale of the looked-up value |
| Globe3D.ValueText | visualizing_spatial/visualizing_3D.js:78-85 | "No data" exactly when the lookup is not a number, otherwise the value with two decimals and the unit |
| Globe3D.CapMatchesLabel | visualizing_spatial/visualizing_3D.js:68-85 | the cap and the label use the same lookup: grey goes with "No data", and any other label shows the value the cap is coloured by |
| Globe3D.PolygonShowsSum | visualizing_spatial/visualizing_3D.js:23-72 | a polygon whose own name has a non-zero sum shows the sum of all contributing rows of that name |
| Choropleth.IsoKeysDistinct | visualizing_spatial/visualizing_choropleth.js:10-21 | the 46 keys of `ISO3_TO_ISO2` are pairwise different (they are listed in strictly alphabetical order) |
| Choropleth.IsoTable | visualizing_spatial/visualizing_choropleth.js:10-21 | the table has 46 entries, and two different keys never map to the same alpha-2 code |
| Choropleth.Iso2Of | visualizing_spatial/visualizing_choropleth.js:33 | `iso2` is defined exactly for the codes of the table, and the table's inverse gives the code back |
| Choropleth.RecordOf | visualizing_spatial/visualizing_choropleth.js:30-36 | a 2020 row with a `Code` yields a record iff its value reads as a number; the record carries the Entity, the trimmed code, its alpha-2 code and the value |
| Choropleth.Data | visualizing_spatial/visualizing_choropleth.js:28-36 | the chain throws exactly when some 2020 row has no `Code`; otherwise `data` holds the records of the 2020 rows whose value is a number, in row order |
| Choropleth.RecordsNaming | visualizing_spatial/visualizing_choropleth.js:28-36 | some record names a country exactly when some 2020 row with a numeric value does |
| Choropleth.LastRecordRow | visualizing_spatial/visualizing_choropleth.js:28-36 | the last record naming a country is the record of the last 2020 row with a numeric value naming it |
| Choropleth.ValueOfRows | visualizing_spatial/visualizing_choropleth.js:28-38 | a name has a value exactly when some 2020 row with a numeric value names it, and the value is that of the last such row |
| Choropleth.CountryPairs | visualizing_spatial/visualizing_choropleth.js:38 | one `[country, value]` pair per record, in order |
| Choropleth.ValueByCountryLast | visualizing_spatial/visualizing_choropleth.js:38 | a name has a value iff some record names it, and the value is that of the last such record |
| Choropleth.Fill | visualizing_spatial/visualizing_choropleth.js:75-79 | "#eee" when the name has no value, otherwise the colour scale of its value |
| Choropleth.Tooltip | visualizing_spatial/visualizing_choropleth.js:82-90 | the bold name first; then "No data" exactly when the name has no value, and the formatted value with its unit otherwise |
| WorldBubbles.ToNumAgreesWithPlus | visualizing_spatial2.js:26 | `String(undefined)` strips to text without a digit, so this `toNum` reads a missing cell as NaN and agrees with the strip-then-`+` conversion on every cell |
| WorldBubbles.YearsOf | visualizing_spatial2.js:32 | the years `d3.max` compares are exactly the numeric `+Year` of the group's rows |
| WorldBubbles.FindYear | visualizing_spatial2.js:33 | `find` returns the first row of the group with the given year, and nothing exactly when no row has it |
| WorldBubbles.Reduce | visualizing_spatial2.js:31-35 | the reducer throws exactly when no row of the group has a numeric year; otherwise it returns the converted value of the first row carrying the group's largest year |
| WorldBubbles.Latest | visualizing_spatial2.js:29-37 | the rollup throws exactly when some group's reducer does; otherwise it has one entry per distinct Entity, each the reducer's result |
| WorldBubbles.LatestEntry | visualizing_spatial2.js:29-37 | each entry is the converted value of the first row of its country whose year is the largest numeric year of that country |
| WorldBubbles.LatestThrows | visualizing_spatial2.js:32-34 | the rollup throws exactly when some country has no row with a numeric year |
| WorldBubbles.Radius | visualizing_spatial2.js:66-70 | 0 exactly when the looked-up value is falsy (missing, 0 or NaN), otherwise the radius scale of it |
| WorldBubbles.Title | visualizing_spatial2.js:75-79 | "name: no data" exactly when the looked-up value is falsy, otherwise the name and the value with three decimals |
| WorldBubbles.ZeroLooksMissing | visualizing_spatial2.js:66-79 | a country whose latest value is 0 gets the same radius and title as one absent from `latest` |
| WorldBubbles.LatestKeys | visualizing_spatial2.js:29-37 | `latest` has an entry for exactly the names some row carries |

## Left out

- Drawing: SVG and DOM work, axes, legends, tooltips' markup, transitions and event wiring. Only the data bound to the marks and the values of the attributes the scripts compute from data are modelled.
- Loading: `d3.csv`, `d3.json` and `Promise.all` are asynchronous I/O. Their results are the row sequences the functions take.
- Number parsing: the conversion of numeric text is the `Js.Reader` parameter. The model does not fix which strings `Number` and `parseFloat` accept beyond blank text and text without a digit. The spelled-out `"Infinity"`, the one digit-free numeric literal, is not modelled: `Num` has no infinities.
- Floating point: sums, means, shares and quantiles are exact reals. Rounding error and the order of summation are not modelled.
- Foreign calls are parameters or left out, because their code is not part of this model:
  - D3 scales, colour interpolators and `d3.format`;
  - `toFixed` and `toLocaleString`;
  - projections and `path.centroid`;
  - topojson, the sankey layout and `d3.stack`;
  - the globe library.
- Floating-point geometry: the ridgeline's gaussian curves and standard deviations, `Math.sqrt` in the flow-line shortening, and the choropleth's float `d3.range` legend bins. These are floating-point drawing computations.
- Randomness: the `Math.random` link identifiers and the seeded jitter of the box-plot points.
- In-place row mutation: the pivot writes `d.value`, the sankey rows are coerced and get `totalProduction`, and the cartogram rows get `energy` and `year`. These writes are modelled as new records built from each row. Aliasing between the rows and other references is not modelled, because nothing else reads them.
- Object prototype keys: a lookup such as `renameMap[col]` or `NAME_FIX[name]` on a name like `"constructor"` would find an inherited property. The tables are modelled as maps without one.
- EmissionsOverTime.ByCountry: ties in the mean keep group order in the source (a stable sort). The model proves sorted order and a permutation, not stability. The same holds for ElectricitySankey.Ranked, Distributions.BoxPlot and OilNetwork.NodesData.
- EmissionsOverTime.SeriesOf: the mean is stated as the value from which the deviations sum to zero. This is equivalent to the sum over the count, but it is not written as that quotient.
- EmissionsOverTime.SeriesOf: points of the same year keep their input order in the source (`Array.prototype.sort` is stable). The model proves year order and a permutation, and leaves the order among equal years open.
- ComparingCategories.Capitalize: upper-cases ASCII letters only. JavaScript's `toUpperCase` maps every Unicode letter and can lengthen the text ("ß" becomes "SS"). So the label keeps its length only for column names whose first label letter is ASCII, as all the chart's columns are.
- Text.ToLower: lower-cases ASCII letters only, through `Text.LowerChar`; `Text.UpperChar` likewise upper-cases ASCII letters only. JavaScript's `toLowerCase` and `toUpperCase` map every Unicode letter, and some mappings change the length. The other-renewables test and the label's initial are therefore modelled for ASCII text only.
- ComparingCategories.WorldBars: the `header` parameter stands for `Object.keys(rowsSelected[0])`, the property order of the first selected row as `d3.csv` built it (comparing_categories.js:16). That is the CSV header, which the model takes as given rather than reading it off a row.
- ComparingCategories.StackedMeans: the `header` parameter stands for `Object.keys(filtered[0])` (comparing_categories.js:455), and `StackedCols` drops its first three names. As for `WorldBars`, this is the CSV header taken as given.
- Cartogram.LatestYear: the source sorts the distinct years descending with `b - a`. This comparator is inconsistent once a NaN year is present, so the order the engine then produces is unspecified. The model takes the largest numeric year, which is what the sort gives without NaN.
- The colour-scale domains (`d3.extent`, the radius scale's `[0, max]` with a NaN maximum) are parameters of the scales, which are left out.
- Globe3D.ValueText: the label's surrounding markup and whitespace are left out; only the value part is modelled.
- WorldBubbles.Latest: the keys of `latest` are `Option<string>`, because a row without `Entity` is grouped under `undefined`.
