/** The greedy max-coverage loop shared by `select_depots` and `select_depots_with_factor`,
    and the two depot selectors built on it. */
module Greedy {
  import opened Wrappers
  import opened Graphs
  import opened Coverage

  /** Every node of the iteration order has a coverage entry (`coverage[node]` never
      raises). */
  predicate HasEntries(order: seq<int>, cov: map<int, set<int>>) {
    forall n :: n in order ==> n in cov
  }

  /** `coverage[n]`, read as empty for a node without an entry (a case `HasEntries` rules
      out wherever the source indexes the dictionary). */
  function Entry(cov: map<int, set<int>>, n: int): set<int> {
    if n in cov then cov[n] else {}
  }

  /** `len(coverage[node] - covered)`. */
  function Gain(cov: map<int, set<int>>, covered: set<int>, n: int): nat {
    |Entry(cov, n) - covered|
  }

  /** The index of the node the inner `for` loop holds after its first `n` iterations:
      the first unselected node of largest gain (`gain > best_gain` with `best_gain`
      starting at -1), `None` while every node seen is selected. */
  function FirstBest(order: seq<int>, cov: map<int, set<int>>, selected: set<int>, covered: set<int>, n: nat)
    : (r: Option<nat>)
    requires n <= |order|
    ensures r.Some? ==> r.value < n && order[r.value] !in selected
  {
    if n == 0 then None
    else
      var prev := FirstBest(order, cov, selected, covered, n - 1);
      var x := order[n - 1];
      if x in selected then prev
      else if prev.None? || Gain(cov, covered, x) > Gain(cov, covered, order[prev.value]) then Some(n - 1)
      else prev
  }

  /** The scan finds nothing exactly when every node it has seen is selected. */
  lemma {:induction false} FirstBestNone(order: seq<int>, cov: map<int, set<int>>, selected: set<int>, covered: set<int>, n: nat)
    requires n <= |order|
    ensures FirstBest(order, cov, selected, covered, n).None? <==> forall j :: 0 <= j < n ==> order[j] in selected
    decreases n
  {
    if n > 0 {
      FirstBestNone(order, cov, selected, covered, n - 1);
    }
  }

  /** What the scan finds has the largest gain among the unselected nodes seen. */
  lemma {:induction false} FirstBestMax(order: seq<int>, cov: map<int, set<int>>, selected: set<int>, covered: set<int>, n: nat)
    requires n <= |order|
    ensures var r := FirstBest(order, cov, selected, covered, n);
      r.Some? ==> forall j :: 0 <= j < n && order[j] !in selected ==>
        Gain(cov, covered, order[j]) <= Gain(cov, covered, order[r.value])
    decreases n
  {
    if n > 0 {
      var prev := FirstBest(order, cov, selected, covered, n - 1);
      FirstBestMax(order, cov, selected, covered, n - 1);
      if prev.None? {
        FirstBestNone(order, cov, selected, covered, n - 1);
      }
    }
  }

  /** Its gain is strictly larger than that of every earlier unselected node: ties go to
      the node met first. */
  lemma {:induction false} FirstBestFirst(order: seq<int>, cov: map<int, set<int>>, selected: set<int>, covered: set<int>, n: nat)
    requires n <= |order|
    ensures var r := FirstBest(order, cov, selected, covered, n);
      r.Some? ==> forall j :: 0 <= j < r.value && order[j] !in selected ==>
        Gain(cov, covered, order[j]) < Gain(cov, covered, order[r.value])
    decreases n
  {
    if n > 0 {
      var prev := FirstBest(order, cov, selected, covered, n - 1);
      FirstBestFirst(order, cov, selected, covered, n - 1);
      if prev.None? {
        FirstBestNone(order, cov, selected, covered, n - 1);
      } else {
        FirstBestMax(order, cov, selected, covered, n - 1);
      }
    }
  }

  /** The node the inner loop ends with, `best_node`. */
  function BestNode(order: seq<int>, cov: map<int, set<int>>, selected: set<int>, covered: set<int>)
    : (r: Option<int>)
    ensures r.Some? ==> r.value in order && r.value !in selected
  {
    match FirstBest(order, cov, selected, covered, |order|)
    case None => None
    case Some(b) => Some(order[b])
  }

  /** `best_node is None` exactly when every node is selected; otherwise no unselected
      node has a larger gain. */
  lemma BestNodeSpec(order: seq<int>, cov: map<int, set<int>>, selected: set<int>, covered: set<int>)
    ensures BestNode(order, cov, selected, covered).None? <==> Elems(order) <= selected
    ensures BestNode(order, cov, selected, covered).Some? ==> forall y :: y in order && y !in selected ==>
      Gain(cov, covered, y) <= Gain(cov, covered, BestNode(order, cov, selected, covered).value)
  {
    FirstBestNone(order, cov, selected, covered, |order|);
    FirstBestMax(order, cov, selected, covered, |order|);
    if BestNode(order, cov, selected, covered).Some? {
      forall y | y in order && y !in selected
        ensures Gain(cov, covered, y) <= Gain(cov, covered, BestNode(order, cov, selected, covered).value)
      {
        var j :| 0 <= j < |order| && order[j] == y;
      }
    } else {
      forall y | y in Elems(order) ensures y in selected {
        var j :| 0 <= j < |order| && order[j] == y;
      }
    }
  }

  /** The inner `for` loop of the greedy selection. */
  method BestUnselected(order: seq<int>, cov: map<int, set<int>>, selected: set<int>, covered: set<int>)
    returns (bestNode: Option<int>)
    requires HasEntries(order, cov)
    ensures bestNode == BestNode(order, cov, selected, covered)
  {
    bestNode := None;
    var bestGain := -1;
    ghost var best: Option<nat> := None;
    for i := 0 to |order|
      invariant best == FirstBest(order, cov, selected, covered, i)
      invariant bestNode == if best.None? then None else Some(order[best.value])
      invariant bestGain == if best.None? then -1 else Gain(cov, covered, order[best.value])
    {
      var node := order[i];
      if node in selected {
        continue;
      }
      var gain := |cov[node] - covered|;
      if gain > bestGain {
        bestGain, bestNode := gain, Some(node);
        best := Some(i);
      }
    }
  }

  /** The union of the coverage sets of `picks` (`covered |= coverage[best_node]` after
      each pick). */
  function UnionOf(cov: map<int, set<int>>, picks: seq<int>): set<int>
    decreases |picks|
  {
    if picks == [] then {} else UnionOf(cov, picks[..|picks| - 1]) + Entry(cov, picks[|picks| - 1])
  }

  lemma UnionOfAppend(cov: map<int, set<int>>, picks: seq<int>, x: int)
    ensures UnionOf(cov, picks + [x]) == UnionOf(cov, picks) + Entry(cov, x)
  {
    assert (picks + [x])[..|picks|] == picks;
  }

  /** The covered set holds every picked node's coverage and nothing else. */
  lemma {:induction false} UnionOfSpec(cov: map<int, set<int>>, picks: seq<int>)
    ensures forall i :: 0 <= i < |picks| ==> Entry(cov, picks[i]) <= UnionOf(cov, picks)
    ensures forall x :: x in UnionOf(cov, picks) ==> exists i :: 0 <= i < |picks| && x in Entry(cov, picks[i])
    decreases |picks|
  {
    if picks != [] {
      var p := picks[..|picks| - 1];
      UnionOfSpec(cov, p);
      assert forall i :: 0 <= i < |p| ==> p[i] == picks[i];
    }
  }

  lemma ElemsAppend(s: seq<int>, x: int)
    ensures Elems(s + [x]) == Elems(s) + {x}
  {
    assert forall y :: y in s + [x] <==> y in s || y == x;
  }

  /** How many positions of `order` hold a node outside `sel`: the loop's termination
      measure. */
  function CountOutside(order: seq<int>, sel: set<int>): nat
    decreases |order|
  {
    if order == [] then 0
    else CountOutside(order[1..], sel) + (if order[0] in sel then 0 else 1)
  }

  /** Selecting one more node of the order leaves fewer positions outside. */
  lemma {:induction false} CountOutsideShrinks(order: seq<int>, sel: set<int>, x: int)
    ensures CountOutside(order, sel + {x}) <= CountOutside(order, sel)
    ensures x in order && x !in sel ==> CountOutside(order, sel + {x}) < CountOutside(order, sel)
    decreases |order|
  {
    if order != [] {
      CountOutsideShrinks(order[1..], sel, x);
      assert x in order && order[0] != x ==> x in order[1..];
    }
  }

  lemma GreedyStepShrinks(order: seq<int>, picks: seq<int>, x: int)
    requires x in order && x !in Elems(picks)
    ensures CountOutside(order, Elems(picks + [x])) < CountOutside(order, Elems(picks))
  {
    ElemsAppend(picks, x);
    CountOutsideShrinks(order, Elems(picks), x);
  }

  /** The picks the outer `while` loop makes after `picks`: stop once everything is
      covered or no unselected node is left, otherwise add the best node. */
  function GreedyFrom(order: seq<int>, cov: map<int, set<int>>, picks: seq<int>): (r: seq<int>)
    ensures |picks| <= |r| && r[..|picks|] == picks
    decreases CountOutside(order, Elems(picks))
  {
    var covered := UnionOf(cov, picks);
    if covered == Elems(order) then picks
    else match BestNode(order, cov, Elems(picks), covered)
      case None => picks
      case Some(x) =>
        GreedyStepShrinks(order, picks, x);
        var r := GreedyFrom(order, cov, picks + [x]);
        assert r[..|picks|] == r[..|picks + [x]|][..|picks|];
        r
  }

  /** The run ends at `picks` once everything is covered or nothing is left to pick. */
  lemma GreedyFromStops(order: seq<int>, cov: map<int, set<int>>, picks: seq<int>)
    requires UnionOf(cov, picks) == Elems(order) || BestNode(order, cov, Elems(picks), UnionOf(cov, picks)).None?
    ensures GreedyFrom(order, cov, picks) == picks
  {}

  /** Otherwise it goes on from `picks` extended by the best node. */
  lemma GreedyFromPicks(order: seq<int>, cov: map<int, set<int>>, picks: seq<int>, x: int)
    requires UnionOf(cov, picks) != Elems(order)
    requires BestNode(order, cov, Elems(picks), UnionOf(cov, picks)) == Some(x)
    ensures GreedyFrom(order, cov, picks) == GreedyFrom(order, cov, picks + [x])
  {}

  /** The picks of the whole run, in the order they are made. */
  function Greedy(order: seq<int>, cov: map<int, set<int>>): seq<int>
  {
    GreedyFrom(order, cov, [])
  }

  /** What one pick of the run is: the best unselected node while something is still
      uncovered. */
  predicate PickIsGreedy(order: seq<int>, cov: map<int, set<int>>, r: seq<int>, i: nat)
    requires i < |r|
  {
    UnionOf(cov, r[..i]) != Elems(order) && BestNode(order, cov, Elems(r[..i]), UnionOf(cov, r[..i])) == Some(r[i])
  }

  /** Every pick after `picks` is the best node for the picks before it. */
  lemma {:induction false} GreedyFromSteps(order: seq<int>, cov: map<int, set<int>>, picks: seq<int>)
    ensures var r := GreedyFrom(order, cov, picks);
      forall i :: |picks| <= i < |r| ==> PickIsGreedy(order, cov, r, i)
    decreases CountOutside(order, Elems(picks))
  {
    var covered := UnionOf(cov, picks);
    var best := BestNode(order, cov, Elems(picks), covered);
    if covered == Elems(order) || best.None? {
      GreedyFromStops(order, cov, picks);
    } else {
      var x := best.value;
      GreedyStepShrinks(order, picks, x);
      GreedyFromPicks(order, cov, picks, x);
      GreedyFromSteps(order, cov, picks + [x]);
      NextPickIsGreedy(order, cov, picks, x);
    }
  }

  /** The first pick after `picks` is the best node for `picks`. */
  lemma NextPickIsGreedy(order: seq<int>, cov: map<int, set<int>>, picks: seq<int>, x: int)
    requires UnionOf(cov, picks) != Elems(order)
    requires BestNode(order, cov, Elems(picks), UnionOf(cov, picks)) == Some(x)
    ensures |picks| < |GreedyFrom(order, cov, picks)|
    ensures PickIsGreedy(order, cov, GreedyFrom(order, cov, picks), |picks|)
  {
    GreedyFromPicks(order, cov, picks, x);
    var r := GreedyFrom(order, cov, picks);
    assert r[..|picks| + 1] == picks + [x];
    assert r[..|picks|] == picks;
  }

  /** The run stops only when everything is covered or every node is selected. */
  lemma {:induction false} GreedyFromExit(order: seq<int>, cov: map<int, set<int>>, picks: seq<int>)
    ensures var r := GreedyFrom(order, cov, picks);
      UnionOf(cov, r) == Elems(order) || Elems(order) <= Elems(r)
    decreases CountOutside(order, Elems(picks))
  {
    var covered := UnionOf(cov, picks);
    var best := BestNode(order, cov, Elems(picks), covered);
    if covered == Elems(order) || best.None? {
      GreedyFromStops(order, cov, picks);
      BestNodeSpec(order, cov, Elems(picks), covered);
    } else {
      var x := best.value;
      GreedyStepShrinks(order, picks, x);
      GreedyFromPicks(order, cov, picks, x);
      GreedyFromExit(order, cov, picks + [x]);
    }
  }

  /** No node is picked twice. */
  lemma {:induction false} GreedyFromNoDup(order: seq<int>, cov: map<int, set<int>>, picks: seq<int>)
    requires Elems(picks) <= Elems(order) && NoDup(picks)
    ensures NoDup(GreedyFrom(order, cov, picks)) && Elems(GreedyFrom(order, cov, picks)) <= Elems(order)
    decreases CountOutside(order, Elems(picks))
  {
    var covered := UnionOf(cov, picks);
    var best := BestNode(order, cov, Elems(picks), covered);
    if covered == Elems(order) || best.None? {
      GreedyFromStops(order, cov, picks);
    } else {
      var x := best.value;
      GreedyStepShrinks(order, picks, x);
      GreedyFromPicks(order, cov, picks, x);
      ElemsAppend(picks, x);
      assert NoDup(picks + [x]) by {
        assert x !in Elems(picks);
      }
      GreedyFromNoDup(order, cov, picks + [x]);
    }
  }

  /** The run picks distinct nodes of the graph, at most one per node. */
  lemma GreedyDistinct(order: seq<int>, cov: map<int, set<int>>)
    ensures NoDup(Greedy(order, cov)) && Elems(Greedy(order, cov)) <= Elems(order)
    ensures |Greedy(order, cov)| <= |order|
  {
    var r := Greedy(order, cov);
    GreedyFromNoDup(order, cov, []);
    ElemsNoDupCard(r);
    ElemsCard(order);
    SubsetCard(Elems(r), Elems(order));
  }

  /** Each pick is the best unselected node for the picks before it, made while some node
      was still uncovered; on exit every node is covered or selected. */
  lemma GreedyChoices(order: seq<int>, cov: map<int, set<int>>)
    ensures forall i :: 0 <= i < |Greedy(order, cov)| ==> PickIsGreedy(order, cov, Greedy(order, cov), i)
    ensures UnionOf(cov, Greedy(order, cov)) == Elems(order) || Elems(Greedy(order, cov)) == Elems(order)
  {
    GreedyFromSteps(order, cov, []);
    GreedyFromExit(order, cov, []);
    GreedyDistinct(order, cov);
  }

  /** Every node is in its own coverage set and coverage stays inside the graph, as
      Dijkstra's result always does. */
  predicate SelfCovering(order: seq<int>, cov: map<int, set<int>>) {
    forall n :: n in order ==> n in Entry(cov, n) && Entry(cov, n) <= Elems(order)
  }

  lemma UnionWithin(order: seq<int>, cov: map<int, set<int>>, picks: seq<int>)
    requires SelfCovering(order, cov) && Elems(picks) <= Elems(order)
    ensures UnionOf(cov, picks) <= Elems(order)
    ensures forall x :: x in picks ==> x in UnionOf(cov, picks)
  {
    UnionOfSpec(cov, picks);
    forall x | x in UnionOf(cov, picks) ensures x in Elems(order) {
      var i :| 0 <= i < |picks| && x in Entry(cov, picks[i]);
      assert picks[i] in Elems(picks);
    }
    forall x | x in picks ensures x in UnionOf(cov, picks) {
      var i :| 0 <= i < |picks| && picks[i] == x;
      assert x in Elems(picks);
    }
  }

  /** With self-covering entries the selected depots cover every node. */
  lemma GreedyCoversAll(order: seq<int>, cov: map<int, set<int>>)
    requires SelfCovering(order, cov)
    ensures UnionOf(cov, Greedy(order, cov)) == Elems(order)
  {
    var r := Greedy(order, cov);
    GreedyChoices(order, cov);
    GreedyDistinct(order, cov);
    UnionWithin(order, cov, r);
  }

  /** With self-covering entries every pick covers at least one new node, so the loop
      never picks a node that adds nothing. */
  lemma GreedyGainPositive(order: seq<int>, cov: map<int, set<int>>, i: nat)
    requires SelfCovering(order, cov)
    requires i < |Greedy(order, cov)|
    ensures var r := Greedy(order, cov);
      Gain(cov, UnionOf(cov, r[..i]), r[i]) >= 1
  {
    var r := Greedy(order, cov);
    GreedyDistinct(order, cov);
    GreedyChoices(order, cov);
    assert PickIsGreedy(order, cov, r, i);
    var before := r[..i];
    assert Elems(before) <= Elems(order);
    var covered := UnionOf(cov, before);
    UnionWithin(order, cov, before);
    var y := Uncovered(covered, Elems(order));
    assert y !in Elems(before);
    BestNodeSpec(order, cov, Elems(before), covered);
    assert Gain(cov, covered, y) <= Gain(cov, covered, r[i]);
    assert y in Entry(cov, y) - covered;
  }

  /** A node of `b` outside its proper subset `a`. */
  lemma Uncovered(a: set<int>, b: set<int>) returns (y: int)
    requires a <= b && a != b
    ensures y in b && y !in a
  {
    if forall x :: x in b ==> x in a {
      assert false;
    }
    y :| y in b && y !in a;
  }

  /** The outer `while` loop of the greedy selection, on `G.nodes()` order and the
      coverage dictionary. */
  method SelectGreedy(order: seq<int>, cov: map<int, set<int>>) returns (selected: set<int>)
    requires HasEntries(order, cov)
    ensures selected == Elems(Greedy(order, cov))
  {
    var all := set n | n in order;
    selected := {};
    var covered: set<int> := {};
    ghost var picks: seq<int> := [];
    while covered != all
      invariant all == Elems(order)
      invariant selected == Elems(picks)
      invariant covered == UnionOf(cov, picks)
      invariant GreedyFrom(order, cov, picks) == Greedy(order, cov)
      decreases CountOutside(order, selected)
    {
      var bestNode := BestUnselected(order, cov, selected, covered);
      if bestNode.None? {
        GreedyFromStops(order, cov, picks);
        break;
      }
      var x := bestNode.value;
      GreedyFromPicks(order, cov, picks, x);
      GreedyStepShrinks(order, picks, x);
      ElemsAppend(picks, x);
      UnionOfAppend(cov, picks, x);
      selected := selected + {x};
      covered := covered + cov[x];
      picks := picks + [x];
    }
    if covered == all {
      GreedyFromStops(order, cov, picks);
    }
  }

  /** `select_depots_with_factor(G, battery_capacity, factor)`: annotate travel times, cover
      with radius `battery_capacity / factor`, run the greedy loop. */
  method SelectDepotsWithFactor(g: Graph, capacity: real, factor: real) returns (selected: set<int>)
    requires factor != 0.0
    ensures selected == Elems(Greedy(g.nodes, CoverageMap(Annotated(g), capacity / factor)))
  {
    var h := AnnotateTravelTimes(g);
    var radius := capacity / factor;
    var cov := ComputeCoverage(h, radius);
    selected := SelectGreedy(h.nodes, cov);
  }

  /** The divisor `select_depots` applies to the battery capacity. */
  const CapacityDivisor: real := 2.0

  /** `select_depots(G, battery_capacity)`: the same steps with radius
      `battery_capacity / 2.0`, the coverage built by `compute_coverage`. */
  method SelectDepots(g: Graph, capacity: real) returns (selected: set<int>)
    ensures selected == Elems(Greedy(g.nodes, CoverageMap(Annotated(g), capacity / CapacityDivisor)))
  {
    var h := AnnotateTravelTimes(g);
    var cov := ComputeCoverage(h, capacity / CapacityDivisor);
    selected := SelectGreedy(h.nodes, cov);
  }

  /** With self-covering entries every node of the order is covered by some pick. */
  lemma CoveringPick(order: seq<int>, cov: map<int, set<int>>, v: int) returns (d: int)
    requires SelfCovering(order, cov) && v in order
    ensures d in Greedy(order, cov) && v in Entry(cov, d)
  {
    var r := Greedy(order, cov);
    GreedyCoversAll(order, cov);
    UnionOfSpec(cov, r);
    assert v in Elems(order);
    var i :| 0 <= i < |r| && v in Entry(cov, r[i]);
    d := r[i];
  }

  /** The coverage dictionary of a graph is self-covering over `G.nodes()`. */
  lemma CoverageSelfCovering(g: Graph, radius: real)
    ensures SelfCovering(g.nodes, CoverageMap(g, radius))
  {
    var cov := CoverageMap(g, radius);
    forall n | n in g.nodes ensures n in Entry(cov, n) && Entry(cov, n) <= Elems(g.nodes) {
      assert n in Elems(g.nodes);
    }
  }

  /** The depots chosen for radius `radius` are distinct nodes of the graph and together
      cover every node; with non-negative weights every node is reached from some depot in
      at most `radius`. */
  lemma DepotsCoverGraph(g: Graph, radius: real, v: int) returns (d: int)
    requires v in g.nodes
    ensures var cov := CoverageMap(Annotated(g), radius);
      NoDup(Greedy(g.nodes, cov)) && Elems(Greedy(g.nodes, cov)) <= Elems(g.nodes)
    ensures var cov := CoverageMap(Annotated(g), radius);
      d in Greedy(g.nodes, cov) && v in cov[d]
    ensures (forall k :: k in g.edges ==> g.edges[k].weight >= 0.0) ==>
      d == v || Reaches(Annotated(g), d, v, radius)
  {
    var h := Annotated(g);
    var cov := CoverageMap(h, radius);
    GreedyDistinct(g.nodes, cov);
    CoverageSelfCovering(h, radius);
    d := CoveringPick(g.nodes, cov, v);
    assert d in Elems(g.nodes);
    if forall k :: k in g.edges ==> g.edges[k].weight >= 0.0 {
      AnnotatedNonNegative(g);
      CoverageExact(h, radius, d, v);
    }
  }
}
