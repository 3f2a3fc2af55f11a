# Failure-scenario instance tools: a Dafny model

This project models the sequential core of three Python scripts. The scripts build
instances of the multi-depot, multi-trip rural postman problem with failure scenarios.
A scenario file is plain text with these parts:

- a header of `NAME`, `NUMBER OF VERTICES`, `VEHICLE CAPACITY` and count lines;
- a `LIST_REQUIRED_EDGES:` block and a `LIST_NON_REQUIRED_EDGES:` block of edge lines
  `(u,v) edge weight w` or `(u,v) cost w`;
- a footer: `FAILURE_SCENARIO:`, `NUMBER OF VEHICLES:`, `DEPOT: d1,d2,...`.

The scripts read such a file into a graph, pick depots greedily so that every node lies
within a radius of some depot, rebalance the required/non-required edge split, and
write the depot and vehicle lines back. The modules are:

- `Wrappers`: `Option` and `Result`.
- `Strings`: the pieces of Python's `str` API the scripts use, on `seq<char>`: `strip()`,
  `startswith`, `in`, `split(sep)[1]`, `split(sep, 1)`, `split(',')`, `','.join`, the
  `re.split(r'[, \t]+', ...)` tokenizer, `str(n)` and `int(s)` (decimal ASCII), with
  `int(str(n)) == n`.
- `Graphs`: the `nx.Graph` the parser fills. Nodes are a sequence in insertion order,
  which is the order `G.nodes()` yields. Edges are a map keyed by the unordered pair
  `(min, max)`, holding `weight`, `required` and `travel_time`.
- `ScenarioParser`: `parse_text_file` as a line-by-line state machine, and both
  behaviours of `extract_weight`.
- `Coverage`: `compute_coverage` and the travel-time annotation. Each coverage entry is a
  ball of a reference shortest-path distance (rounds of edge relaxation). The ball is
  proved equal to "reachable by a walk of travel time at most the radius" when travel
  times are non-negative.
- `Greedy`: the greedy max-coverage loop of `select_depots` and
  `select_depots_with_factor`, specified by a recursive reference run `Greedy`.
- `Rebalance`: `rebalance_required_edges`. It covers the four-section split, the
  balancing to `ceil(total/2)` required edges, the rebuild, the depot count and the
  count-line rewrite.
- `DepotRewrite`: the two ways a new depot placement is written into a file. One is the
  filter-and-insert of `update_gdb_with_third_radius`; the other is the filter-and-append
  of `update_all_instances`.

Every loop of the scripts is a Dafny `method` whose `ensures` ties its result to a
specification function. The properties are proved as lemmas about those functions. The
scripts only mutate local lists, sets and dictionaries and a graph, so no class is needed:
each such local is a `seq`, `set` or `map` variable of the method.

`float(...)` is the parameter `parseFloat: string -> Option<real>` (`None` stands for
the `ValueError`). Arithmetic on capacities is on `real`.

## Model

| member | source | states |
|---|---|---|
| Strings.Strip | balanced_failure_scenarios.py:17 | `s.strip()` is a slice of `s`; everything cut is whitespace and the result neither starts nor ends with whitespace |
| Strings.IndexOf | balanced_failure_scenarios.py:50-53 | the first position where the pattern occurs, `None` when it occurs nowhere |
| Strings.SecondPiece | balanced_failure_scenarios.py:51-53 | `s.split(sep)[1]`: present iff `sep` occurs; it is the text after the first `sep`, up to the next `sep` or the end, and contains no `sep` |
| Strings.Remainder | updated_failure_scenarios.py:55-57 | `s.split(sep, 1)[1]`: present iff `sep` occurs; it is everything after the first `sep` |
| Strings.SplitOnce | balanced_failure_scenarios.py:39 | `line.split(') ', 1)`: two parts around the first separator, which put back together give the line; none when the separator is missing |
| Strings.StripChar | balanced_failure_scenarios.py:40 | `s.strip('(')`: no `(` left at either end, only characters of `s` |
| Strings.StripCharCut | balanced_failure_scenarios.py:40 | `s.strip('(')` is the slice of `s` between a leading and a trailing run of `(`; those runs are all it removes |
| Strings.StripCharAfterLead | balanced_failure_scenarios.py:40 | a single leading `(` before text that neither starts nor ends with `(` is exactly what `strip('(')` removes |
| Strings.FirstOccurrence | balanced_failure_scenarios.py:39 | a pattern occurring at `i`, whose first character occurs nowhere before `i`, is first found at `i` |
| Strings.SplitOn | balanced_failure_scenarios.py:36 | `s.split(',')`: at least one piece, no piece contains the separator |
| Strings.JoinSplit | balanced_failure_scenarios.py:36 | joining the pieces of a split gives the string back |
| Strings.SplitJoin | balanced_failure_scenarios.py:274 | splitting a join of separator-free pieces gives the pieces back |
| Strings.Tokens | balanced_failure_scenarios.py:147 | the non-empty tokens of `re.split(r'[, \t]+', s)` are non-empty and contain no separator |
| Strings.TokensOfJoin | balanced_failure_scenarios.py:147 | the tokens of a comma-joined list of non-empty, separator-free pieces are those pieces |
| Strings.TokensAfterSeps | balanced_failure_scenarios.py:147 | separators in front of a string add no token |
| Strings.TokensOfSeparated | balanced_failure_scenarios.py:147 | the tokens of non-empty, separator-free pieces written with any non-empty runs of `,`, space and tab between them, and any runs before and after, are those pieces (`1,5`, `1, 5`, `1 5`, ` 1\t5 `) |
| Strings.IntToString | balanced_failure_scenarios.py:158-162 | `str(n)` is non-empty decimal digits with an optional leading minus |
| Strings.IntToStringRoundTrip | balanced_failure_scenarios.py:36 | `int(str(n)) == n` for every integer |
| Strings.NatToStringValue | balanced_failure_scenarios.py:274 | the digits of `str(n)` for `n >= 0` are valid for `int()` and denote `n` |
| ScenarioParser.MarkerPiece | balanced_failure_scenarios.py:51-53 | both cuts of `extract_weight` exist exactly when the marker occurs |
| ScenarioParser.ExtractWeight | balanced_failure_scenarios.py:49-60 | when a marker occurs and `float()` accepts the stripped text cut after it, the weight is that value; otherwise it is 1.0 |
| ScenarioParser.SearchedPiece | updated_failure_scenarios.py:53-57 | the second behaviour's leading `strip()` changes neither whether a marker occurs nor the stripped text after it |
| ScenarioParser.EdgeWeightText | updated_failure_scenarios.py:54-55 | in both behaviours, whenever `edge weight` occurs, the text handed to `float()` is the stripped text after it |
| ScenarioParser.CostText | updated_failure_scenarios.py:56-57 | in both behaviours, with `cost` and no `edge weight`, the text handed to `float()` is the stripped text after `cost` |
| ScenarioParser.EdgeWeightBeforeCost | balanced_failure_scenarios.py:50-51 | in both behaviours, whenever `edge weight` occurs, with or without `cost`, the weight is `float()` of the stripped text after it, or 1.0 when that fails |
| ScenarioParser.CostWeight | balanced_failure_scenarios.py:52-53 | in both behaviours, with `cost` and no `edge weight`, the weight is `float()` of the stripped text after `cost`, or 1.0 when that fails |
| ScenarioParser.NoMarkerDefaultWeight | visualize_with_depot_placement.py:56-57 | with neither marker the weight is 1.0, in both behaviours |
| ScenarioParser.ContainsStripped | updated_failure_scenarios.py:53-57 | a marker occurs in the stripped text iff it occurs in the raw text, at the position shifted by the cut |
| ScenarioParser.StripBeforeRemainder | updated_failure_scenarios.py:53-57 | the leading `strip()` does not change the stripped text after the marker |
| ScenarioParser.WeightRulesAgreeOnSingleMarker | updated_failure_scenarios.py:49-63 | when the chosen marker occurs once, `split(m)[1]` and `strip().split(m, 1)[1]` hand `float()` the same text |
| ScenarioParser.WeightRulesDifferOnRepeatedMarker | balanced_failure_scenarios.py:51-53 | on `cost1cost2` the first behaviour parses `1`, the second `1cost2` |
| ScenarioParser.ParseIntList | balanced_failure_scenarios.py:36 | `[int(x.strip()) for x in pieces]`: one value per piece, each the `int()` of its stripped piece; fails iff some piece fails |
| ScenarioParser.ParseEdgeLine | balanced_failure_scenarios.py:39-41 | an edge line parses only if it contains `) ` |
| ScenarioParser.SplitAfterPair | balanced_failure_scenarios.py:39 | `split(') ', 1)` of a line whose text before the first `) ` has no `)` cuts at that `) ` |
| ScenarioParser.PairPieces | balanced_failure_scenarios.py:40-41 | `"(U,V".strip('(').split(',')` gives back the two decimal numerals `U` and `V` |
| ScenarioParser.EdgeLineRoundTrip | balanced_failure_scenarios.py:39-41 | the line `(u,v) rest` with `u` and `v` in decimal parses as `(u, v, rest)` for all integers `u`, `v` and every `rest` |
| ScenarioParser.LineClassOf | balanced_failure_scenarios.py:18-37 | blank lines are exactly the empty ones; capacity and depot lines start with their keys |
| ScenarioParser.LineClassOfSpec | balanced_failure_scenarios.py:18-37 | the `if`/`elif` chain in order: a line has each class iff it is non-empty, fails every earlier key test and starts with that class's key |
| ScenarioParser.CapacityClass | balanced_failure_scenarios.py:20-25 | a stripped line starting with `VEHICLE CAPACITY` reaches the capacity branch |
| ScenarioParser.StepCapacity | balanced_failure_scenarios.py:25-27 | only a line starting with `VEHICLE CAPACITY` changes the capacity |
| ScenarioParser.ParseNeedsCapacity | balanced_failure_scenarios.py:45-46 | a successful parse saw a line starting with `VEHICLE CAPACITY` |
| ScenarioParser.MissingCapacityRejected | visualize_with_depot_placement.py:46-47 | without a capacity line, a file whose lines all parse is rejected with the missing-capacity error |
| ScenarioParser.StepOnKeepsCapacity | balanced_failure_scenarios.py:25-27 | a step keeps a capacity that is set, and a capacity line sets it |
| ScenarioParser.ParseFromSetsCapacity | balanced_failure_scenarios.py:16-46 | when every line steps and one of them starts with `VEHICLE CAPACITY`, the loop ends with the capacity set |
| ScenarioParser.CapacityPresentAccepted | balanced_failure_scenarios.py:45-46 | a file whose lines all step and that has a capacity line parses without error |
| ScenarioParser.AcceptedIffCapacity | balanced_failure_scenarios.py:45-46 | for a file whose lines all step, the parse succeeds iff some line starts with `VEHICLE CAPACITY` |
| ScenarioParser.StepEdgesOutside | updated_failure_scenarios.py:38-44 | outside the two edge sections, a line does not touch the edges |
| ScenarioParser.StepEdgesRequired | visualize_with_depot_placement.py:39-45 | no edge is lost; an edge a line adds or rewrites has `required` iff the section is the required one |
| ScenarioParser.StepDepotLine | updated_failure_scenarios.py:34-36 | a `DEPOT:` line replaces the depot list by its comma-separated ints in order, or fails the parse |
| ScenarioParser.ParseTextFile | balanced_failure_scenarios.py:9-47 | the loop of `parse_text_file` computes `Parse`: the state machine over the lines, then the capacity check |
| Graphs.Key | visualize_with_depot_placement.py:45 | the edge key of `(u, v)` is the ordered pair of `u` and `v`, so `(u,v)` and `(v,u)` share it |
| Graphs.KeySymmetric | visualize_with_depot_placement.py:45 | `Key(u, v) == Key(v, u)` |
| Graphs.AddNodesFrom | balanced_failure_scenarios.py:24 | `add_nodes_from(range(lo, hi + 1))`: keeps the old nodes in front, adds exactly the range, adds no duplicate |
| Graphs.AddEdge | balanced_failure_scenarios.py:44 | `add_edge`: adds missing end nodes after the old ones, sets the weight and required flag of that edge, leaves every other edge alone |
| Graphs.AddEdgeOverwrites | visualize_with_depot_placement.py:39-45 | a later `(v,u)` line overwrites the weight and flag of an earlier `(u,v)` line |
| Coverage.DistSound | updated_failure_scenarios.py:71 | every reference distance is the cost of a walk of that many edges at most |
| Coverage.DistComplete | updated_failure_scenarios.py:71 | the reference distance is at most the cost of every walk of that many edges at most |
| Coverage.ShortenWalk | updated_failure_scenarios.py:71 | with non-negative travel times, a walk can be made repetition-free without growing its cost |
| Coverage.Ball | updated_failure_scenarios.py:71-72 | the keys of Dijkstra's result always hold the source and otherwise only graph nodes |
| Coverage.BallSound | updated_failure_scenarios.py:71-72 | every other node of the ball is reached within the radius |
| Coverage.BallComplete | updated_failure_scenarios.py:71-72 | with non-negative travel times, every node reached within the radius is in the ball |
| Coverage.BallExact | updated_failure_scenarios.py:71-72 | with non-negative travel times, the ball is the source plus the nodes reached within the radius |
| Coverage.Annotated | updated_failure_scenarios.py:80-81 | the annotation keeps nodes and edges and sets every `travel_time` to the weight |
| Coverage.AnnotatedTravelTime | updated_failure_scenarios.py:80-81 | after the annotation an edge's travel time is its weight |
| Coverage.AnnotatedNonNegative | updated_failure_scenarios.py:80-81 | non-negative weights give non-negative travel times |
| Coverage.AnnotateTravelTimes | balanced_failure_scenarios.py:206-208 | the annotation loop computes `Annotated` |
| Coverage.CoverageMap | updated_failure_scenarios.py:65-73 | one entry per node; each entry contains its node and only graph nodes |
| Coverage.CoverageExact | visualize_with_depot_placement.py:64-69 | with non-negative travel times, an entry holds exactly its node and the nodes reached within the radius |
| Coverage.ComputeCoverage | updated_failure_scenarios.py:65-73 | the loop of `compute_coverage` computes `CoverageMap` |
| Greedy.FirstBest | balanced_failure_scenarios.py:224-229 | the inner scan's choice is an unselected node already seen |
| Greedy.FirstBestNone | balanced_failure_scenarios.py:224-229 | the scan has no choice iff every node seen is selected |
| Greedy.FirstBestMax | balanced_failure_scenarios.py:224-229 | the choice has the largest gain among the unselected nodes seen |
| Greedy.FirstBestFirst | balanced_failure_scenarios.py:223-229 | the choice beats every earlier unselected node strictly: ties go to the first in node order |
| Greedy.BestNode | balanced_failure_scenarios.py:223-231 | `best_node` is an unselected node of the graph |
| Greedy.BestNodeSpec | balanced_failure_scenarios.py:223-231 | `best_node is None` iff every node is selected; otherwise no unselected node has a larger gain |
| Greedy.BestUnselected | balanced_failure_scenarios.py:223-229 | the inner loop computes `BestNode` |
| Greedy.UnionOfAppend | balanced_failure_scenarios.py:233 | `covered |= coverage[best]` keeps `covered` the union of the picks' entries |
| Greedy.UnionOfSpec | balanced_failure_scenarios.py:233 | the union contains every pick's entry and nothing outside them |
| Greedy.GreedyStepShrinks | balanced_failure_scenarios.py:232 | every pick lowers the number of unselected nodes, so the loop ends |
| Greedy.GreedyFromStops | balanced_failure_scenarios.py:222-231 | the run stops when everything is covered or no node is left |
| Greedy.GreedyFromPicks | balanced_failure_scenarios.py:232-233 | otherwise it continues with the best node appended |
| Greedy.NextPickIsGreedy | balanced_failure_scenarios.py:222-233 | each pick is the first unselected node of maximal gain at its step |
| Greedy.GreedyFromExit | balanced_failure_scenarios.py:222-231 | on exit everything is covered or every node is selected |
| Greedy.GreedyFromNoDup | balanced_failure_scenarios.py:225-226 | no node is picked twice and every pick is a graph node |
| Greedy.GreedyDistinct | visualize_with_depot_placement.py:81-94 | the picks are distinct graph nodes, at most one per node, so the loop runs at most N times |
| Greedy.GreedyChoices | balanced_failure_scenarios.py:219-235 | every pick is greedy, and the run ends covered or with every node selected |
| Greedy.UnionWithin | balanced_failure_scenarios.py:233 | with self-covering entries inside the node set, `covered` stays inside the node set and holds every pick |
| Greedy.GreedyCoversAll | visualize_with_depot_placement.py:81-95 | with self-covering entries, the picks cover every node |
| Greedy.GreedyGainPositive | balanced_failure_scenarios.py:227-229 | with self-covering entries every pick gains at least one node, so no zero-gain node is picked |
| Greedy.SelectGreedy | balanced_failure_scenarios.py:219-235 | the `while` loop computes the set of the reference run's picks |
| Greedy.SelectDepotsWithFactor | balanced_failure_scenarios.py:202-235 | annotate, cover with radius `capacity / factor`, and run the greedy loop |
| Greedy.SelectDepots | updated_failure_scenarios.py:75-102 | the same steps with radius `capacity / 2.0` |
| Greedy.CoveringPick | balanced_failure_scenarios.py:222-235 | with self-covering entries every node lies in the entry of some pick |
| Greedy.CoverageSelfCovering | visualize_with_depot_placement.py:64-69 | `compute_coverage` entries are self-covering |
| Greedy.DepotsCoverGraph | visualize_with_depot_placement.py:72-95 | the depots are distinct graph nodes, every node lies in a depot's entry, and with non-negative weights it is within the radius of that depot |
| Rebalance.Classify | balanced_failure_scenarios.py:79-95 | the tests of the split loop in order: each kind holds iff its test passes and no earlier test did |
| Rebalance.SplitSections | balanced_failure_scenarios.py:76-103 | the split loop computes `SplitLines` |
| Rebalance.SplitEdgeLines | balanced_failure_scenarios.py:94-101 | the required and non-required lists hold only lines whose stripped form starts with `(` |
| Rebalance.SplitStepDestination | balanced_failure_scenarios.py:77-103 | each line goes to the end of the part fixed by its section and kind, or is dropped |
| Rebalance.SplitKeeps | balanced_failure_scenarios.py:77-103 | the parts hold only input lines, each at most as often as the input does |
| Rebalance.SplitCanonical | balanced_failure_scenarios.py:77-103 | for the usual file shape, header through the marker, the two edge blocks, and the footer from the first closing line on |
| Rebalance.SplitRequiredPart | balanced_failure_scenarios.py:79-82 | the first required marker ends the header, and the edge lines after it are required |
| Rebalance.SplitNonRequiredPart | balanced_failure_scenarios.py:83-85 | the non-required marker is dropped and the edge lines after it are non-required |
| Rebalance.SplitFooterPart | balanced_failure_scenarios.py:86-90 | the first line ending in `:` inside an edge section starts the footer; the rest is kept verbatim |
| Rebalance.SplitWithoutMarkers | balanced_failure_scenarios.py:92-93 | a file without markers is all header |
| Rebalance.TargetIsCeiling | balanced_failure_scenarios.py:107 | the target is `ceil(total/2)` and at most the total |
| Rebalance.Balanced | balanced_failure_scenarios.py:105-118 | balancing keeps the concatenation of the two lists exactly, with `ceil(total/2)` required lines and `floor(total/2)` non-required lines |
| Rebalance.Balance | balanced_failure_scenarios.py:109-118 | the pop/insert loops compute `Balanced`; the loop's `break` never fires |
| Rebalance.ThroughFirstAt | balanced_failure_scenarios.py:123-126 | the header copy ends with the first required-marker line |
| Rebalance.ThroughFirstAll | balanced_failure_scenarios.py:123-126 | without such a line the whole header is copied |
| Rebalance.CopyHeader | balanced_failure_scenarios.py:123-126 | the header loop computes `UpToReqMarker` |
| Rebalance.FirstWhere | balanced_failure_scenarios.py:144-149 | the index of the first accepted line, with no accepted line before it; none when no line is accepted |
| Rebalance.CountDepots | balanced_failure_scenarios.py:143-149 | the depot count is the token count of the first `DEPOT:` line, 0 without one |
| Rebalance.MapLines | balanced_failure_scenarios.py:155-164 | the count fix has the output's length and treats each line on its own |
| Rebalance.FixCounts | balanced_failure_scenarios.py:155-164 | the count-fixing loop computes `FixAll` |
| Rebalance.FixReqCountLine | balanced_failure_scenarios.py:157-158 | every line whose stripped form starts with `NUMBER OF REQUIRED_EDGES:` becomes `NUMBER OF REQUIRED_EDGES: n` with `n` the required count |
| Rebalance.FixNonReqCountLine | balanced_failure_scenarios.py:159-160 | every line whose stripped form starts with `NUMBER OF NON_REQUIRED_EDGES:` becomes `NUMBER OF NON_REQUIRED_EDGES: n` with `n` the non-required count |
| Rebalance.FixVehiclesLine | balanced_failure_scenarios.py:161-162 | every line whose stripped form starts with `NUMBER OF VEHICLES:` becomes `NUMBER OF VEHICLES: n` with `n` the vehicle count |
| Rebalance.FixLineIdempotent | balanced_failure_scenarios.py:155-164 | fixing a line twice is fixing it once |
| Rebalance.FixLineEdge | balanced_failure_scenarios.py:163-164 | edge lines are never rewritten |
| Rebalance.FixLineMarker | balanced_failure_scenarios.py:163-164 | the written non-required marker is not rewritten |
| Rebalance.FixAllEdges | balanced_failure_scenarios.py:163-164 | a block of edge lines comes through the count fix unchanged |
| Rebalance.FixAllRebuilt | balanced_failure_scenarios.py:155-164 | the count fix touches only the header and footer of the rebuilt file |
| Rebalance.RebalanceRequiredEdges | balanced_failure_scenarios.py:62-166 | the function computes `Rebalanced`: split, balance, rebuild, count depots, fix counts |
| Rebalance.RebalanceLayout | balanced_failure_scenarios.py:120-164 | the output is the fixed header through the marker, the first `ceil(total/2)` edge lines, the literal non-required marker, the remaining edge lines and the fixed footer |
| DepotRewrite.SortedIds | balanced_failure_scenarios.py:274 | `sorted(depots)`: strictly increasing, with exactly the set's elements |
| DepotRewrite.IntStrings | balanced_failure_scenarios.py:274 | `map(str, ds)`: one decimal string per depot, in order |
| DepotRewrite.Filter | balanced_failure_scenarios.py:261-263 | the comprehension keeps no dropped line and is no longer than its input |
| DepotRewrite.FilterAppend | balanced_failure_scenarios.py:261-263 | filtering distributes over concatenation |
| DepotRewrite.FilterKeepsAll | balanced_failure_scenarios.py:261-263 | a list with nothing to drop is unchanged |
| DepotRewrite.FilterMembers | balanced_failure_scenarios.py:261-263 | a line survives iff it was present and is not dropped |
| DepotRewrite.FilterLines | updated_failure_scenarios.py:138-142 | the comprehension computes `Filter` |
| DepotRewrite.InsertAtIndex | balanced_failure_scenarios.py:268 | `list.insert(k, x)` shifts the lines from `k` on by one and puts `x` at `k` |
| DepotRewrite.InsertShiftSome | balanced_failure_scenarios.py:272-275 | inserting a line the test rejects moves the first accepted line by one if it was at or after the insertion point |
| DepotRewrite.InsertBesideFirst | balanced_failure_scenarios.py:266-275 | the scan-insert-break loop computes `InsertAtFirst` |
| DepotRewrite.RewriteWithInsertedLines | balanced_failure_scenarios.py:260-275 | the filter and two insertions compute `InsertedRewrite` |
| DepotRewrite.WrittenLinesKinds | balanced_failure_scenarios.py:261-274 | the written lines are lines the filter would drop, are neither edge nor capacity lines, and differ |
| DepotRewrite.InsertedRewriteKeepsOthers | balanced_failure_scenarios.py:261-275 | apart from the old and new depot and vehicle lines, the file is unchanged, in order |
| DepotRewrite.InsertedRewriteOnlyNewLines | balanced_failure_scenarios.py:261-275 | the only depot or vehicle lines left are the two new ones |
| DepotRewrite.InsertedVehicleLine | balanced_failure_scenarios.py:266-269 | the vehicle line directly follows the first `VEHICLE CAPACITY` line; without one it is not written |
| DepotRewrite.InsertedDepotLine | balanced_failure_scenarios.py:272-275 | the depot line directly precedes the first edge line; without one it is not written |
| DepotRewrite.RewriteWithAppendedLines | updated_failure_scenarios.py:138-166 | the filter and two appends compute `AppendedRewrite` |
| DepotRewrite.WrittenLinesStripped | updated_failure_scenarios.py:140-146 | both written lines are of the kind the filter drops |
| DepotRewrite.AppendedRewriteSpec | updated_failure_scenarios.py:138-166 | the old lines are kept in order minus the depot and vehicle lines, then the vehicle line, then the depot line |
| DepotRewrite.ParseIntStrings | balanced_failure_scenarios.py:274 | `[int(x.strip()) for x in map(str, ds)] == ds` |
| DepotRewrite.DepotLineParses | balanced_failure_scenarios.py:274 | the written `DEPOT:` line of a non-empty placement reads back through the parser as the sorted depots |
| DepotRewrite.DepotLineTokens | updated_failure_scenarios.py:146 | counted by the rebalancer, the written `DEPOT:` line has one token per depot |
| DepotRewrite.EmptyDepotLineRejected | balanced_failure_scenarios.py:274 | the line written for an empty placement, `DEPOT: `, fails the parser's depot parse |

## Left out

- File and directory I/O (`open`, `readlines`, `writelines`, `os.listdir`, `os.makedirs`,
  `shutil.rmtree`) and the batch loops around the core: `process_all`, the loop
  scaffolding of `update_all_instances` and `update_gdb_with_third_radius`, and the
  interactive `main` functions. The model starts from the lines of a file and ends with
  the lines to write.
- `visualize_graph`: plotting, with no logic to verify.
- The `print` diagnostics, including the warning `extract_weight` prints in
  balanced_failure_scenarios.py, and the report at balanced_failure_scenarios.py:196-200.
- Dijkstra's internals. Coverage entries are specified by a reference distance, and the
  model makes no claim about the heap or the visiting order.
- `float()` and IEEE arithmetic. `float()` is an abstract parameter; division and the
  comparison with the radius are on `real`, with no rounding.
- Coverage.NonNegative: the coverage results are exact only for non-negative travel
  times, which networkx's Dijkstra also assumes. Negative weights are not modelled.
- Strings.ParseInt: `int()` is modelled on ASCII digits (optional sign, single
  underscores between digits, surrounding whitespace). Other Unicode digits and
  whitespace are not modelled.
- ScenarioParser.ParseEdgeLine: `int()` on the two end numbers is applied to the pieces
  as split, which is what the source does. `BadLine` merges all of Python's
  exceptions (ValueError from `int()`/`float()`, unpacking errors).
- Greedy.SelectDepotsWithFactor: the docstring, comment and print of
  `update_gdb_with_third_radius` speak of a radius of one third of the capacity, but the
  call passes `factor=2`. The factor is kept as a parameter, and the call's factor 2 is
  what the source computes. A zero factor raises in Python and is excluded by a `requires`.
- The vehicle count written next to a new depot placement is the number of depots, in
  both rewrites. The forcing to 2 vehicles for a single depot happens only in
  `rebalance_required_edges`. The model follows the code here and does not apply the
  minimum of two anywhere else.
- The unused `vc_idx` and `edge_idx` lookups in `update_all_instances`
  (updated_failure_scenarios.py:149-164): computed and never used, so not modelled.
- An empty depot placement writes `DEPOT: ` with nothing after it, which
  `parse_text_file` cannot read back (`DepotRewrite.EmptyDepotLineRejected`). The
  round-trip lemma `DepotRewrite.DepotLineParses` therefore requires a non-empty
  placement. The greedy selection returns an empty set only for a graph with no nodes.
- The edge `travel_time` default `data.get('weight', 1.0)`: every edge the parser adds
  has a weight, so the default is never taken and is not modelled.
