/** `compute_coverage`: for every node, the set of nodes that
    `nx.single_source_dijkstra_path_length(G, node, cutoff=radius, weight='travel_time')`
    returns. Dijkstra itself is replaced by a reference distance (rounds of edge
    relaxation), and the ball it yields is proved to be exactly the set of nodes that a
    walk of travel time at most the radius reaches, when travel times are non-negative. */
module Coverage {
  import opened Wrappers
  import opened Graphs

  /** `w` is a walk of `g`: nodes of the graph, each consecutive pair joined by an edge. */
  predicate IsWalk(g: Graph, w: seq<int>) {
    && |w| >= 1
    && (forall i :: 0 <= i < |w| ==> w[i] in g.nodes)
    && (forall i :: 0 <= i < |w| - 1 ==> Adjacent(g, w[i], w[i + 1]))
  }

  predicate IsPath(g: Graph, w: seq<int>, s: int, v: int) {
    IsWalk(g, w) && w[0] == s && w[|w| - 1] == v
  }

  /** The travel time of a walk: the sum over its edges. */
  function Cost(g: Graph, w: seq<int>): real
    decreases |w|
  {
    if |w| <= 1 then 0.0 else Cost(g, w[..|w| - 1]) + TravelTime(g, w[|w| - 2], w[|w| - 1])
  }

  /** Some walk from `s` to `v` takes at most `r`. */
  ghost predicate Reaches(g: Graph, s: int, v: int, r: real) {
    exists w :: IsPath(g, w, s, v) && Cost(g, w) <= r
  }

  /** No edge has a negative travel time (networkx's Dijkstra assumes this). */
  predicate NonNegative(g: Graph) {
    forall k :: k in g.edges ==> g.edges[k].travelTime.GetOr(1.0) >= 0.0
  }

  lemma NonNegativeTravelTime(g: Graph, u: int, v: int)
    requires NonNegative(g)
    ensures TravelTime(g, u, v) >= 0.0
  {}

  function MinOpt(a: Option<real>, b: Option<real>): (r: Option<real>)
    ensures r.Some? <==> a.Some? || b.Some?
    ensures a.Some? ==> r.value <= a.value
    ensures b.Some? ==> r.value <= b.value
    ensures r.Some? ==> r == a || r == b
  {
    match (a, b)
    case (None, _) => b
    case (_, None) => a
    case (Some(x), Some(y)) => if x <= y then a else b
  }

  /** The least travel time from `s` to `v` over walks of at most `k` edges, `None` when no
      such walk reaches `v`: `k` rounds of relaxing every edge. */
  function Dist(g: Graph, s: int, k: nat, v: int): Option<real>
    decreases k, 1
  {
    if k == 0 then (if v == s then Some(0.0) else None)
    else if v !in g.nodes then Dist(g, s, k - 1, v)
    else MinOpt(Dist(g, s, k - 1, v), Via(g, s, k, v, g.nodes))
  }

  /** The best way into `v` over one more edge from a node of `us` that round `k - 1`
      reaches. */
  function Via(g: Graph, s: int, k: nat, v: int, us: seq<int>): Option<real>
    requires k > 0
    decreases k, 0, |us|
  {
    if us == [] then None
    else
      var rest := Via(g, s, k, v, us[1..]);
      var du := Dist(g, s, k - 1, us[0]);
      if du.Some? && Adjacent(g, us[0], v) then MinOpt(Some(du.value + TravelTime(g, us[0], v)), rest)
      else rest
  }

  /** `Via` is at most the way in through any neighbour of `us` that round `k - 1` reaches. */
  lemma {:induction false} ViaBound(g: Graph, s: int, k: nat, v: int, us: seq<int>, u: int)
    requires k > 0 && u in us && Dist(g, s, k - 1, u).Some? && Adjacent(g, u, v)
    ensures Via(g, s, k, v, us).Some?
    ensures Via(g, s, k, v, us).value <= Dist(g, s, k - 1, u).value + TravelTime(g, u, v)
    decreases |us|
  {
    if us[0] != u {
      ViaBound(g, s, k, v, us[1..], u);
    }
  }

  /** The node of `us` whose edge into `v` realises `Via`. */
  lemma {:induction false} ViaArgmin(g: Graph, s: int, k: nat, v: int, us: seq<int>) returns (u: int)
    requires k > 0 && Via(g, s, k, v, us).Some?
    ensures u in us && Dist(g, s, k - 1, u).Some? && Adjacent(g, u, v)
    ensures Via(g, s, k, v, us).value == Dist(g, s, k - 1, u).value + TravelTime(g, u, v)
    decreases |us|
  {
    var rest := Via(g, s, k, v, us[1..]);
    var x := us[0];
    var dx := Dist(g, s, k - 1, x);
    if dx.Some? && Adjacent(g, x, v) && (rest.None? || dx.value + TravelTime(g, x, v) <= rest.value) {
      u := x;
    } else {
      u := ViaArgmin(g, s, k, v, us[1..]);
    }
  }

  /** Every distance is the cost of a walk of at most `k` edges that realises it. */
  lemma {:induction false} DistSound(g: Graph, s: int, k: nat, v: int) returns (w: seq<int>)
    requires s in g.nodes
    requires Dist(g, s, k, v).Some?
    ensures IsPath(g, w, s, v) && |w| <= k + 1 && Cost(g, w) == Dist(g, s, k, v).value
  {
    if k == 0 {
      w := [s];
      assert v == s;
    } else if Dist(g, s, k, v) == Dist(g, s, k - 1, v) {
      w := DistSound(g, s, k - 1, v);
    } else {
      var u := DistByVia(g, s, k, v);
      var wu := DistSound(g, s, k - 1, u);
      w := ExtendPath(g, wu, s, u, v);
    }
  }

  /** A distance that round `k` improved is the distance of a neighbour `u` in round
      `k - 1` plus the edge {u, v}. */
  lemma DistByVia(g: Graph, s: int, k: nat, v: int) returns (u: int)
    requires k > 0 && Dist(g, s, k, v).Some?
    requires Dist(g, s, k, v) != Dist(g, s, k - 1, v)
    ensures v in g.nodes && u in g.nodes && Adjacent(g, u, v) && Dist(g, s, k - 1, u).Some?
    ensures Dist(g, s, k, v).value == Dist(g, s, k - 1, u).value + TravelTime(g, u, v)
  {
    assert Dist(g, s, k, v) == Via(g, s, k, v, g.nodes);
    u := ViaArgmin(g, s, k, v, g.nodes);
  }

  /** A path to `u` followed by the edge {u, v} is a path to `v`. */
  lemma ExtendPath(g: Graph, wu: seq<int>, s: int, u: int, v: int) returns (w: seq<int>)
    requires IsPath(g, wu, s, u) && v in g.nodes && Adjacent(g, u, v)
    ensures w == wu + [v]
    ensures IsPath(g, w, s, v) && Cost(g, w) == Cost(g, wu) + TravelTime(g, u, v)
  {
    w := wu + [v];
    assert w[..|w| - 1] == wu;
  }

  /** Every walk of at most `k` edges from `s` is at least as long as the distance. */
  lemma {:induction false} DistComplete(g: Graph, s: int, k: nat, w: seq<int>, v: int)
    requires IsPath(g, w, s, v) && |w| <= k + 1
    ensures Dist(g, s, k, v).Some? && Dist(g, s, k, v).value <= Cost(g, w)
  {
    if k == 0 {
      assert v == s;
      assert Dist(g, s, k, v) == Some(0.0);
    } else if |w| <= k {
      DistComplete(g, s, k - 1, w, v);
      DistMonotone(g, s, k, v);
      assert Dist(g, s, k, v).value <= Cost(g, w);
    } else {
      var u := w[|w| - 2];
      PathPrefix(g, w, s, v);
      DistComplete(g, s, k - 1, w[..|w| - 1], u);
      DistStep(g, s, k, u, v);
      assert Dist(g, s, k, v).value <= Cost(g, w);
    }
  }

  /** Another round never loses a distance nor makes one longer. */
  lemma DistMonotone(g: Graph, s: int, k: nat, v: int)
    requires k > 0 && Dist(g, s, k - 1, v).Some?
    ensures Dist(g, s, k, v).Some? && Dist(g, s, k, v).value <= Dist(g, s, k - 1, v).value
  {}

  /** Round `k` reaches `v` at most one edge beyond where round `k - 1` reaches `u`. */
  lemma DistStep(g: Graph, s: int, k: nat, u: int, v: int)
    requires k > 0 && u in g.nodes && v in g.nodes && Adjacent(g, u, v)
    requires Dist(g, s, k - 1, u).Some?
    ensures Dist(g, s, k, v).Some?
    ensures Dist(g, s, k, v).value <= Dist(g, s, k - 1, u).value + TravelTime(g, u, v)
  {
    ViaBound(g, s, k, v, g.nodes, u);
  }

  /** Dropping the last node of a path of two or more nodes leaves a path to the one
      before it, shorter by the last edge. */
  lemma PathPrefix(g: Graph, w: seq<int>, s: int, v: int)
    requires IsPath(g, w, s, v) && |w| >= 2
    ensures IsPath(g, w[..|w| - 1], s, w[|w| - 2])
    ensures Adjacent(g, w[|w| - 2], v) && v in g.nodes
    ensures Cost(g, w) == Cost(g, w[..|w| - 1]) + TravelTime(g, w[|w| - 2], v)
  {
    var w' := w[..|w| - 1];
    forall i | 0 <= i < |w'| - 1 ensures Adjacent(g, w'[i], w'[i + 1]) {
      assert w'[i] == w[i] && w'[i + 1] == w[i + 1];
      assert Adjacent(g, w[i], w[i + 1]);
    }
    assert Adjacent(g, w[|w| - 2], w[|w| - 1]);
  }

  /** Cutting a walk at position `i` splits its cost. */
  lemma {:induction false} CostSplit(g: Graph, w: seq<int>, i: nat)
    requires i < |w|
    ensures Cost(g, w) == Cost(g, w[..i + 1]) + Cost(g, w[i..])
    decreases |w|
  {
    if i < |w| - 1 {
      var w' := w[..|w| - 1];
      CostSplit(g, w', i);
      assert w'[..i + 1] == w[..i + 1];
      assert w[i..][..|w[i..]| - 1] == w'[i..];
      assert w[i..][|w[i..]| - 2] == w[|w| - 2];
    } else {
      assert w[..i + 1] == w;
    }
  }

  lemma CostNonNegative(g: Graph, w: seq<int>)
    requires NonNegative(g)
    ensures Cost(g, w) >= 0.0
    decreases |w|
  {
    if |w| > 1 {
      CostNonNegative(g, w[..|w| - 1]);
      NonNegativeTravelTime(g, w[|w| - 2], w[|w| - 1]);
    }
  }

  /** Removing a cycle from a walk keeps it a walk between the same nodes. */
  lemma CutCycleIsPath(g: Graph, w: seq<int>, s: int, v: int, i: nat, j: nat)
    requires IsPath(g, w, s, v) && i < j < |w| && w[i] == w[j]
    ensures IsPath(g, w[..i + 1] + w[j + 1..], s, v)
  {
    var w2 := w[..i + 1] + w[j + 1..];
    forall t | 0 <= t < |w2| ensures w2[t] == if t <= i then w[t] else w[j + t - i] {}
    forall t | 0 <= t < |w2| - 1 ensures Adjacent(g, w2[t], w2[t + 1]) {
      if t >= i {
        assert w2[t] == w[j + t - i];
      }
    }
    assert w2[|w2| - 1] == v by {
      if j + 1 < |w| {
        assert w2[|w2| - 1] == w[|w| - 1];
      }
    }
  }

  /** With non-negative travel times removing a cycle makes a walk no longer. */
  lemma CutCycleCost(g: Graph, w: seq<int>, i: nat, j: nat)
    requires NonNegative(g)
    requires i < j < |w| && w[i] == w[j]
    ensures Cost(g, w[..i + 1] + w[j + 1..]) <= Cost(g, w)
  {
    var w2 := w[..i + 1] + w[j + 1..];
    assert Cost(g, w) == Cost(g, w[..i + 1]) + Cost(g, w[i..]) by {
      CostSplit(g, w, i);
    }
    assert Cost(g, w[i..]) == Cost(g, w[i..j + 1]) + Cost(g, w[j..]) by {
      CostSplit(g, w[i..], j - i);
      assert w[i..][..j - i + 1] == w[i..j + 1];
      assert w[i..][j - i..] == w[j..];
    }
    assert Cost(g, w2) == Cost(g, w[..i + 1]) + Cost(g, w[j..]) by {
      CostSplit(g, w2, i);
      assert w2[..i + 1] == w[..i + 1];
      assert w2[i..] == w[j..];
    }
    assert Cost(g, w[i..j + 1]) >= 0.0 by {
      CostNonNegative(g, w[i..j + 1]);
    }
  }

  /** With non-negative travel times every walk can be shortened to one that repeats no
      node. */
  lemma {:induction false} ShortenWalk(g: Graph, w: seq<int>, s: int, v: int) returns (w': seq<int>)
    requires NonNegative(g) && IsPath(g, w, s, v)
    ensures IsPath(g, w', s, v) && NoDup(w') && Cost(g, w') <= Cost(g, w)
    decreases |w|
  {
    if NoDup(w) {
      w' := w;
    } else {
      assert exists i, j :: 0 <= i < j < |w| && w[i] == w[j];
      var i, j :| 0 <= i < j < |w| && w[i] == w[j];
      CutCycleIsPath(g, w, s, v, i, j);
      CutCycleCost(g, w, i, j);
      w' := ShortenWalk(g, w[..i + 1] + w[j + 1..], s, v);
    }
  }

  lemma {:induction false} ElemsNoDupCard(s: seq<int>)
    requires NoDup(s)
    ensures |Elems(s)| == |s|
    decreases |s|
  {
    if s != [] {
      var t := s[..|s| - 1];
      assert NoDup(t);
      ElemsNoDupCard(t);
      assert Elems(s) == Elems(t) + {s[|s| - 1]};
      assert s[|s| - 1] !in Elems(t);
    }
  }

  lemma {:induction false} ElemsCard(s: seq<int>)
    ensures |Elems(s)| <= |s|
    decreases |s|
  {
    if s != [] {
      var t := s[..|s| - 1];
      ElemsCard(t);
      assert Elems(s) == Elems(t) + {s[|s| - 1]};
    }
  }

  /** A walk that repeats no node has at most as many nodes as the graph. */
  lemma DupFreeWalkLength(g: Graph, w: seq<int>)
    requires IsWalk(g, w) && NoDup(w)
    ensures |w| <= |g.nodes|
  {
    ElemsNoDupCard(w);
    ElemsCard(g.nodes);
    SubsetCard(Elems(w), Elems(g.nodes));
  }

  lemma SubsetCard(a: set<int>, b: set<int>)
    requires a <= b
    ensures |a| <= |b|
  {
    assert b == a + (b - a);
    assert a * (b - a) == {};
  }

  /** The nodes networkx's Dijkstra returns from `s` with cutoff `r`: `s` itself (always,
      at distance 0) and every node whose distance is at most `r`. */
  function Ball(g: Graph, s: int, r: real): (b: set<int>)
    ensures s in b
    ensures forall v :: v in b ==> v == s || v in g.nodes
  {
    {s} + set v | v in g.nodes && Dist(g, s, |g.nodes|, v).Some? && Dist(g, s, |g.nodes|, v).value <= r
  }

  /** Every node of the ball is reached within the radius. */
  lemma BallSound(g: Graph, s: int, r: real, v: int)
    requires s in g.nodes
    requires v in Ball(g, s, r) && v != s
    ensures Reaches(g, s, v, r)
  {
    var w := DistSound(g, s, |g.nodes|, v);
  }

  /** With non-negative travel times every node reached within the radius is in the ball. */
  lemma BallComplete(g: Graph, s: int, r: real, v: int)
    requires NonNegative(g)
    requires Reaches(g, s, v, r)
    ensures v in Ball(g, s, r)
  {
    var w :| IsPath(g, w, s, v) && Cost(g, w) <= r;
    var w' := ShortenWalk(g, w, s, v);
    DupFreeWalkLength(g, w');
    DistComplete(g, s, |g.nodes|, w', v);
  }

  /** The ball is exactly the source and the nodes within the radius. */
  lemma BallExact(g: Graph, s: int, r: real, v: int)
    requires NonNegative(g) && s in g.nodes
    ensures v in Ball(g, s, r) <==> v == s || Reaches(g, s, v, r)
  {
    if v in Ball(g, s, r) && v != s {
      BallSound(g, s, r, v);
    }
    if Reaches(g, s, v, r) {
      BallComplete(g, s, r, v);
    }
  }

  /** The graph after `data['travel_time'] = data.get('weight', 1.0)` on every edge (every
      edge the parser adds has a weight). */
  function Annotated(g: Graph): (h: Graph)
    ensures h.nodes == g.nodes && h.edges.Keys == g.edges.Keys
    ensures forall k :: k in h.edges ==>
      h.edges[k] == g.edges[k].(travelTime := Some(g.edges[k].weight))
  {
    g.(edges := map k | k in g.edges :: g.edges[k].(travelTime := Some(g.edges[k].weight)))
  }

  /** After the annotation Dijkstra's edge length is the parsed weight. */
  lemma AnnotatedTravelTime(g: Graph, u: int, v: int)
    requires Adjacent(g, u, v)
    ensures TravelTime(Annotated(g), u, v) == g.edges[Key(u, v)].weight
  {}

  /** Non-negative weights give non-negative travel times. */
  lemma AnnotatedNonNegative(g: Graph)
    requires forall k :: k in g.edges ==> g.edges[k].weight >= 0.0
    ensures NonNegative(Annotated(g))
  {}

  /** The annotation loop `for u, v, data in G.edges(data=True)`. */
  method AnnotateTravelTimes(g: Graph) returns (h: Graph)
    ensures h == Annotated(g)
  {
    var edges := g.edges;
    var todo := g.edges.Keys;
    while todo != {}
      invariant todo <= g.edges.Keys && edges.Keys == g.edges.Keys
      invariant forall k :: k in edges && k !in todo ==>
        edges[k] == g.edges[k].(travelTime := Some(g.edges[k].weight))
      invariant forall k :: k in todo ==> edges[k] == g.edges[k]
      decreases |todo|
    {
      var k :| k in todo;
      edges := edges[k := edges[k].(travelTime := Some(edges[k].weight))];
      todo := todo - {k};
    }
    h := g.(edges := edges);
  }

  /** The coverage dictionary `compute_coverage(G, radius)` returns. */
  function CoverageMap(g: Graph, radius: real): (cov: map<int, set<int>>)
    ensures cov.Keys == Elems(g.nodes)
    ensures forall v :: v in cov ==> v in cov[v] && cov[v] <= Elems(g.nodes)
  {
    map v | v in g.nodes :: Ball(g, v, radius)
  }

  /** With non-negative travel times each entry is exactly what the radius reaches. */
  lemma CoverageExact(g: Graph, radius: real, n: int, v: int)
    requires NonNegative(g) && n in g.nodes
    ensures v in CoverageMap(g, radius)[n] <==> v == n || Reaches(g, n, v, radius)
  {
    BallExact(g, n, radius, v);
  }

  /** `compute_coverage(G, radius)`: one Dijkstra call per node in `G.nodes()` order. */
  method ComputeCoverage(g: Graph, radius: real) returns (cov: map<int, set<int>>)
    ensures cov == CoverageMap(g, radius)
  {
    cov := map[];
    var i := 0;
    while i < |g.nodes|
      invariant 0 <= i <= |g.nodes|
      invariant cov == map v | v in g.nodes[..i] :: Ball(g, v, radius)
    {
      var node := g.nodes[i];
      cov := cov[node := Ball(g, node, radius)];
      assert g.nodes[..i + 1] == g.nodes[..i] + [node];
      i := i + 1;
    }
    assert g.nodes[..i] == g.nodes;
  }
}
