/** The part of an undirected `networkx.Graph` the scenario scripts use: nodes in insertion
    order (the order `G.nodes()` yields them) and one attribute record per unordered edge. */
module Graphs {
  import opened Wrappers

  /** The attributes of one edge: `weight` and `required` from the parser, `travel_time`
      once the depot selector has annotated the edge. */
  datatype EdgeData = EdgeData(weight: real, required: bool, travelTime: Option<real>)

  /** `nodes` in insertion order, edges keyed by their endpoints in ascending order. */
  datatype Graph = Graph(nodes: seq<int>, edges: map<(int, int), EdgeData>)

  const EmptyGraph := Graph([], map[])

  /** The key of the unordered edge {u, v}. */
  function Key(u: int, v: int): (k: (int, int))
    ensures k.0 <= k.1
    ensures (k.0 == u && k.1 == v) || (k.0 == v && k.1 == u)
  {
    if u <= v then (u, v) else (v, u)
  }

  lemma KeySymmetric(u: int, v: int)
    ensures Key(u, v) == Key(v, u)
  {}

  function Elems(s: seq<int>): set<int> {
    set x | x in s
  }

  predicate NoDup(s: seq<int>) {
    forall i, j :: 0 <= i < j < |s| ==> s[i] != s[j]
  }

  /** Every edge joins two nodes of the graph and nodes are listed once. */
  ghost predicate WellFormed(g: Graph) {
    && NoDup(g.nodes)
    && forall k :: k in g.edges ==> k.0 <= k.1 && k.0 in g.nodes && k.1 in g.nodes
  }

  predicate Adjacent(g: Graph, u: int, v: int) {
    Key(u, v) in g.edges
  }

  /** The travel time Dijkstra reads for edge {u, v}: the `travel_time` attribute, 1 when the
      edge has none (networkx's default edge weight), 0 for a pair that is not an edge. */
  function TravelTime(g: Graph, u: int, v: int): real {
    if Adjacent(g, u, v) then g.edges[Key(u, v)].travelTime.GetOr(1.0) else 0.0
  }

  /** `G.add_node(x)`: appended when new, otherwise nothing changes. */
  function AddNode(g: Graph, x: int): (r: Graph)
    ensures r.edges == g.edges
    ensures r.nodes == if x in g.nodes then g.nodes else g.nodes + [x]
    ensures NoDup(g.nodes) ==> NoDup(r.nodes)
  {
    if x in g.nodes then g else g.(nodes := g.nodes + [x])
  }

  /** `G.add_nodes_from(range(lo, hi + 1))`. */
  function AddNodesFrom(g: Graph, lo: int, hi: int): (r: Graph)
    ensures r.edges == g.edges
    ensures |g.nodes| <= |r.nodes| && r.nodes[..|g.nodes|] == g.nodes
    ensures forall x :: x in r.nodes <==> x in g.nodes || lo <= x <= hi
    ensures NoDup(g.nodes) ==> NoDup(r.nodes)
    decreases hi - lo
  {
    if lo > hi then g else AddNodesFrom(AddNode(g, lo), lo + 1, hi)
  }

  /** `G.add_edge(u, v, weight=w, required=req)`: adds the endpoints (u first) when new, and
      sets `weight` and `required` on the edge, keeping any other attribute it already had. */
  function AddEdge(g: Graph, u: int, v: int, w: real, req: bool): (r: Graph)
    ensures |g.nodes| <= |r.nodes| && r.nodes[..|g.nodes|] == g.nodes
    ensures forall x :: x in r.nodes <==> x in g.nodes || x == u || x == v
    ensures r.edges.Keys == g.edges.Keys + {Key(u, v)}
    ensures r.edges[Key(u, v)].weight == w && r.edges[Key(u, v)].required == req
    ensures forall k :: k in g.edges && k != Key(u, v) ==> r.edges[k] == g.edges[k]
    ensures WellFormed(g) ==> WellFormed(r)
  {
    var h := AddNode(AddNode(g, u), v);
    var k := Key(u, v);
    var old_tt := if k in g.edges then g.edges[k].travelTime else None;
    h.(edges := g.edges[k := EdgeData(w, req, old_tt)])
  }

  /** A repeated `add_edge` of the same pair, in either orientation, overwrites the weight and
      the required flag of the earlier one. */
  lemma AddEdgeOverwrites(g: Graph, u: int, v: int, w1: real, r1: bool, w2: real, r2: bool)
    ensures var h := AddEdge(AddEdge(g, u, v, w1, r1), v, u, w2, r2);
      && Adjacent(h, u, v) && Adjacent(h, v, u)
      && h.edges[Key(u, v)].weight == w2 && h.edges[Key(u, v)].required == r2
      && h.edges.Keys == g.edges.Keys + {Key(u, v)}
  {
    KeySymmetric(u, v);
  }
}
