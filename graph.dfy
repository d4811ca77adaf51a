/**
  The graph container: a node set plus an ordered edge sequence of
  `(src, dst, edge_obj)` triples (a multigraph: parallel edges are kept).
  The edge table of the source is a DataFrame whose row order is append order;
  here it is a `seq`.
 */
module Graphs {
  import opened Wrappers
  import opened GraphLabels

  type Edge<N, E> = (N, N, E)

  /** Every source and destination node mentioned by the edges. */
  function Endpoints<N, E>(es: seq<Edge<N, E>>): (r: set<N>)
  {
    (set i | 0 <= i < |es| :: es[i].0) + (set i | 0 <= i < |es| :: es[i].1)
  }

  lemma EndpointsOf<N, E>(es: seq<Edge<N, E>>, i: int)
    requires 0 <= i < |es|
    ensures es[i].0 in Endpoints(es) && es[i].1 in Endpoints(es)
  {
  }

  /** The node set covers every edge's endpoints (the graph invariant, stated edge by edge). */
  ghost predicate Covers<N, E>(nodes: set<N>, es: seq<Edge<N, E>>) {
    forall i :: 0 <= i < |es| ==> es[i].0 in nodes && es[i].1 in nodes
  }

  lemma EndpointsCovered<N, E>(nodes: set<N>, es: seq<Edge<N, E>>)
    requires Endpoints(es) <= nodes
    ensures Covers(nodes, es)
  {
    forall i | 0 <= i < |es| ensures es[i].0 in nodes && es[i].1 in nodes {
      EndpointsOf(es, i);
    }
  }

  lemma {:induction false} EndpointsAppend<N, E>(a: seq<Edge<N, E>>, b: seq<Edge<N, E>>)
    ensures Endpoints(a + b) == Endpoints(a) + Endpoints(b)
  {
    forall x | x in Endpoints(a + b) ensures x in Endpoints(a) + Endpoints(b) {
      var i :| 0 <= i < |a + b| && ((a + b)[i].0 == x || (a + b)[i].1 == x);
      if i < |a| { EndpointsOf(a, i); } else { EndpointsOf(b, i - |a|); }
    }
    forall x | x in Endpoints(a) + Endpoints(b) ensures x in Endpoints(a + b) {
      if x in Endpoints(a) {
        var i :| 0 <= i < |a| && (a[i].0 == x || a[i].1 == x);
        EndpointsOf(a + b, i);
      } else {
        var i :| 0 <= i < |b| && (b[i].0 == x || b[i].1 == x);
        EndpointsOf(a + b, |a| + i);
      }
    }
  }

  // ---------------------------------------------------------------- subgraph

  /** A missing node predicate (`None`) means every node is kept. */
  predicate NodeOk<N>(nodePred: Option<N -> bool>, n: N) {
    match nodePred
    case None => true
    case Some(p) => p(n)
  }

  /** The edge mask of `subgraph`: the edge predicate and the node predicate on both endpoints. */
  predicate Keeps<N, E>(edgePred: Option<(N, N, E) -> bool>, nodePred: Option<N -> bool>, e: Edge<N, E>) {
    && (match edgePred case None => true case Some(p) => p(e.0, e.1, e.2))
    && NodeOk(nodePred, e.0)
    && NodeOk(nodePred, e.1)
  }

  /** The rows of the edge table selected by the boolean mask, in their original order. */
  function KeptEdges<N, E>(es: seq<Edge<N, E>>, edgePred: Option<(N, N, E) -> bool>, nodePred: Option<N -> bool>): (r: seq<Edge<N, E>>)
    ensures |r| <= |es|
  {
    if es == [] then []
    else
      var e := es[|es| - 1];
      KeptEdges(es[..|es| - 1], edgePred, nodePred) + (if Keeps(edgePred, nodePred, e) then [e] else [])
  }

  /** An edge is kept exactly when it is an edge of the graph that passes the mask. */
  lemma {:induction false} KeptEdgesMembers<N, E>(es: seq<Edge<N, E>>, ep: Option<(N, N, E) -> bool>, np: Option<N -> bool>, x: Edge<N, E>)
    ensures x in KeptEdges(es, ep, np) <==> x in es && Keeps(ep, np, x)
  {
    if es != [] {
      var init := es[..|es| - 1];
      KeptEdgesMembers(init, ep, np, x);
      assert es == init + [es[|es| - 1]];
    }
  }

  /**
    Counted with multiplicity: a triple the mask passes is kept as many times as it occurs
    in the table (one edge object used on two parallel rows gives two rows), and one it
    fails is not kept at all.
   */
  lemma {:induction false} KeptEdgesCount<N, E>(es: seq<Edge<N, E>>, ep: Option<(N, N, E) -> bool>, np: Option<N -> bool>, x: Edge<N, E>)
    ensures multiset(KeptEdges(es, ep, np))[x] == if Keeps(ep, np, x) then multiset(es)[x] else 0
  {
    if es != [] {
      var init, e := es[..|es| - 1], es[|es| - 1];
      KeptEdgesCount(init, ep, np, x);
      assert es == init + [e];
      var tail := if Keeps(ep, np, e) then [e] else [];
      assert KeptEdges(es, ep, np) == KeptEdges(init, ep, np) + tail;
      assert multiset(KeptEdges(es, ep, np)) == multiset(KeptEdges(init, ep, np)) + multiset(tail);
      assert multiset(es) == multiset(init) + multiset{e};
    }
  }

  /** With no predicates, `subgraph` keeps every edge, in order. */
  lemma {:induction false} KeptEdgesAll<N, E>(es: seq<Edge<N, E>>)
    ensures KeptEdges(es, None, None) == es
  {
    if es != [] {
      KeptEdgesAll(es[..|es| - 1]);
      assert es == es[..|es| - 1] + [es[|es| - 1]];
    }
  }

  /** The endpoints of the kept edges satisfy the node predicate and are endpoints of the graph. */
  lemma KeptEdgesEndpoints<N, E>(es: seq<Edge<N, E>>, ep: Option<(N, N, E) -> bool>, np: Option<N -> bool>)
    ensures forall x :: x in Endpoints(KeptEdges(es, ep, np)) ==> x in Endpoints(es) && NodeOk(np, x)
  {
    var kept := KeptEdges(es, ep, np);
    forall x | x in Endpoints(kept) ensures x in Endpoints(es) && NodeOk(np, x) {
      var i :| 0 <= i < |kept| && (kept[i].0 == x || kept[i].1 == x);
      KeptEdgesMembers(es, ep, np, kept[i]);
      var j :| 0 <= j < |es| && es[j] == kept[i];
      EndpointsOf(es, j);
    }
  }

  /** The node set `subgraph` builds: `from_df` on the kept edges, then the nodes passing `node_pred`. */
  function SubgraphNodes<N, E>(nodes: set<N>, es: seq<Edge<N, E>>, ep: Option<(N, N, E) -> bool>, np: Option<N -> bool>): set<N>
  {
    Endpoints(KeptEdges(es, ep, np)) + (set n | n in nodes && NodeOk(np, n))
  }

  /** On a well-formed graph the subgraph's node set is exactly the nodes passing `node_pred`, isolated ones included. */
  lemma SubgraphNodesExact<N, E>(nodes: set<N>, es: seq<Edge<N, E>>, ep: Option<(N, N, E) -> bool>, np: Option<N -> bool>)
    requires Endpoints(es) <= nodes
    ensures SubgraphNodes(nodes, es, ep, np) == set n | n in nodes && NodeOk(np, n)
  {
    KeptEdgesEndpoints(es, ep, np);
  }

  /** How `subgraph` fails: Python raises `TypeError` when a callable gets the wrong number of arguments. */
  datatype CallError = TypeError

  /**
    `subgraph` as written: the default edge predicate is the one-argument `lambda x: True`,
    but the mask calls it with three arguments, so any graph with at least one edge raises.
   */
  function SubgraphEdgesAsWritten<N, E>(es: seq<Edge<N, E>>, ep: Option<(N, N, E) -> bool>, np: Option<N -> bool>): (r: Result<seq<Edge<N, E>>, CallError>)
    ensures ep.Some? ==> r == Ok(KeptEdges(es, ep, np))
  {
    if ep.None? && |es| > 0 then Fail(TypeError) else Ok(KeptEdges(es, ep, np))
  }

  /** The discrepancy: a one-edge graph and no predicates raise instead of returning the whole graph. */
  lemma SubgraphAsWrittenRaises<N, E>(src: N, dst: N, obj: E)
    ensures SubgraphEdgesAsWritten([(src, dst, obj)], None, None) == Fail(TypeError)
    ensures KeptEdges([(src, dst, obj)], None, None) == [(src, dst, obj)]
  {
    KeptEdgesAll([(src, dst, obj)]);
  }

  // ---------------------------------------------------------------- projection

  /** The image of a node set under `node_map`. */
  function Image<N, N2>(nodes: set<N>, nodeMap: N -> N2): set<N2> {
    set n | n in nodes :: nodeMap(n)
  }

  /** `project_a_copy`'s edge table: each row re-pointed through `node_map`, its object through `edge_map`. */
  function ProjectEdges<N, E, N2, E2>(es: seq<Edge<N, E>>, nodeMap: N -> N2, edgeMap: E -> E2): (r: seq<Edge<N2, E2>>)
    ensures |r| == |es|
    ensures forall i :: 0 <= i < |es| ==> r[i] == (nodeMap(es[i].0), nodeMap(es[i].1), edgeMap(es[i].2))
  {
    seq(|es|, i requires 0 <= i < |es| => (nodeMap(es[i].0), nodeMap(es[i].1), edgeMap(es[i].2)))
  }

  /** The endpoints of the projected edges are the images of the old endpoints. */
  lemma ProjectEndpoints<N, E, N2, E2>(es: seq<Edge<N, E>>, nodeMap: N -> N2, edgeMap: E -> E2)
    ensures Endpoints(ProjectEdges(es, nodeMap, edgeMap)) == Image(Endpoints(es), nodeMap)
  {
    var ps := ProjectEdges(es, nodeMap, edgeMap);
    forall y | y in Endpoints(ps) ensures y in Image(Endpoints(es), nodeMap) {
      var i :| 0 <= i < |ps| && (ps[i].0 == y || ps[i].1 == y);
      EndpointsOf(es, i);
    }
    forall y | y in Image(Endpoints(es), nodeMap) ensures y in Endpoints(ps) {
      var x :| x in Endpoints(es) && nodeMap(x) == y;
      var i :| 0 <= i < |es| && (es[i].0 == x || es[i].1 == x);
      EndpointsOf(ps, i);
    }
  }

  // ---------------------------------------------------------------- the container

  class Graph<N(==), E> {
    var nodes: set<N>
    var edges: seq<Edge<N, E>>

    /** Adding an edge adds its endpoints, so the node set always covers them. */
    ghost predicate Valid()
      reads this
    {
      Endpoints(edges) <= nodes
    }

    /** `Graph(edges, nodes)`: start empty, then `add_edges(edges)` and `add_nodes(nodes)`. */
    constructor (es: seq<Edge<N, E>>, ns: set<N>)
      ensures Valid()
      ensures edges == es && nodes == Endpoints(es) + ns
    {
      nodes := {};
      edges := [];
      new;
      AddEdges(es);
      AddNodes(ns);
    }

    /** `add_nodes`: union into the node set; adding the same nodes again changes nothing. */
    method AddNodes(ns: set<N>)
      requires Valid()
      modifies this
      ensures Valid()
      ensures nodes == old(nodes) + ns && edges == old(edges)
      ensures ns <= nodes
    {
      nodes := nodes + ns;
    }

    /** `add_edges`: append the triples after the existing edges, then add both endpoints of each. */
    method AddEdges(es: seq<Edge<N, E>>)
      requires Valid()
      modifies this
      ensures Valid()
      ensures edges == old(edges) + es
      ensures nodes == old(nodes) + Endpoints(es)
    {
      EndpointsAppend(edges, es);
      edges := edges + es;
      nodes := nodes + Endpoints(es);
    }

    /** `from_df`: take the edge table as is; the node set becomes exactly its endpoints. */
    method FromDf(es: seq<Edge<N, E>>)
      modifies this
      ensures Valid()
      ensures edges == es && nodes == Endpoints(es)
    {
      edges := es;
      nodes := Endpoints(es);
    }

    /**
      `subgraph(edge_pred, node_pred)`: a new graph with the masked edges in their
      original order and the nodes that pass `node_pred`.  This follows the evidently
      intended default for `edge_pred` (keep every edge); see SubgraphEdgesAsWritten.
     */
    method Subgraph(edgePred: Option<(N, N, E) -> bool>, nodePred: Option<N -> bool>) returns (h: Graph<N, E>)
      requires Valid()
      ensures fresh(h) && h.Valid()
      ensures h.edges == KeptEdges(edges, edgePred, nodePred)
      ensures h.nodes == set n | n in nodes && NodeOk(nodePred, n)
    {
      var kept := KeptEdges(edges, edgePred, nodePred);
      h := new Graph([], {});
      h.FromDf(kept);
      h.AddNodes(set n | n in nodes && NodeOk(nodePred, n));
      SubgraphNodesExact(nodes, edges, edgePred, nodePred);
    }

    /**
      `project_a_copy(edge_map, node_map)`: `node_map` is applied once per node and the results
      are remembered; every edge is re-pointed through them and its object mapped by `edge_map`.
      `calls` records the nodes in the order `node_map` is applied to them.
     */
    method ProjectACopy<N2(==), E2>(edgeMap: E -> E2, nodeMap: N -> N2) returns (h: Graph<N2, E2>, ghost calls: seq<N>)
      requires Valid()
      ensures fresh(h) && h.Valid()
      ensures h.edges == ProjectEdges(edges, nodeMap, edgeMap)
      ensures h.nodes == Image(nodes, nodeMap)
      ensures OncePer(calls, nodes)
    {
      var processed;
      processed, calls := ProcessNodes(nodes, nodeMap);
      var es := edges;
      forall i | 0 <= i < |es| ensures es[i].0 in processed && es[i].1 in processed {
        EndpointsOf(es, i);
      }
      var newEdges := seq(|es|, i requires 0 <= i < |es| =>
        (processed[es[i].0], processed[es[i].1], edgeMap(es[i].2)));
      assert newEdges == ProjectEdges(es, nodeMap, edgeMap);
      h := new Graph([], {});
      h.FromDf(newEdges);
      h.AddNodes(processed.Values);
      ProjectEndpoints(es, nodeMap, edgeMap);
    }

    /**
      `project_a_copy(edge_map, GraphLabel.node_wrapper)`: here `node_map` allocates, so the
      cache matters.  Every node gets one fresh label, no two nodes share one, and every
      edge is re-pointed through the cache, so all edges at a node share its label.
     */
    method ProjectWrapped<E2>(edgeMap: E -> E2, str: N -> string) returns (h: Graph<GraphLabel<N>, E2>, ghost processed: map<N, GraphLabel<N>>)
      requires Valid()
      ensures fresh(h) && h.Valid()
      ensures processed.Keys == nodes && h.nodes == processed.Values
      ensures forall n :: n in processed ==>
        fresh(processed[n]) && processed[n].name == str(n) && processed[n].attrs == map["data" := n]
      ensures forall m, n :: m in processed && n in processed && m != n ==> processed[m] != processed[n]
      ensures |h.edges| == |edges|
      ensures forall i :: 0 <= i < |edges| ==>
        h.edges[i] == (processed[edges[i].0], processed[edges[i].1], edgeMap(edges[i].2))
    {
      var cache: map<N, GraphLabel<N>> := map[];
      var todo := nodes;
      while todo != {}
        invariant todo <= nodes
        invariant cache.Keys == nodes - todo
        invariant forall n :: n in cache ==>
          fresh(cache[n]) && cache[n].name == str(n) && cache[n].attrs == map["data" := n]
        invariant forall m, n :: m in cache && n in cache && m != n ==> cache[m] != cache[n]
        decreases todo
      {
        var n :| n in todo;
        var l := NodeWrapper(n, str);
        cache := cache[n := l];
        todo := todo - {n};
      }
      var es := edges;
      forall i | 0 <= i < |es| ensures es[i].0 in cache && es[i].1 in cache {
        EndpointsOf(es, i);
      }
      var newEdges := seq(|es|, i requires 0 <= i < |es| =>
        (cache[es[i].0], cache[es[i].1], edgeMap(es[i].2)));
      h := new Graph([], {});
      h.FromDf(newEdges);
      h.AddNodes(cache.Values);
      processed := cache;
    }
  }

  /** `calls` names every member of `ns` exactly once, and nothing else. */
  ghost predicate OncePer<N>(calls: seq<N>, ns: set<N>) {
    && (forall n :: n in ns ==> n in calls)
    && (forall i :: 0 <= i < |calls| ==> calls[i] in ns)
    && (forall i, j :: 0 <= i < j < |calls| ==> calls[i] != calls[j])
  }

  /**
    The first loop of `project_a_copy`: `processed_node_objs[node] = node_map(node)` for
    every node, `node_map` being applied once per node (`calls` lists the nodes in call order).
   */
  method ProcessNodes<N, N2(==)>(nodes: set<N>, nodeMap: N -> N2) returns (processed: map<N, N2>, ghost calls: seq<N>)
    ensures processed.Keys == nodes
    ensures forall n :: n in processed ==> processed[n] == nodeMap(n)
    ensures processed.Values == Image(nodes, nodeMap)
    ensures OncePer(calls, nodes)
  {
    processed := map[];
    var todo := nodes;
    calls := [];
    while todo != {}
      invariant todo <= nodes
      invariant processed.Keys == nodes - todo
      invariant forall n :: n in processed ==> processed[n] == nodeMap(n)
      invariant OncePer(calls, nodes - todo)
      decreases todo
    {
      var n :| n in todo;
      processed := processed[n := nodeMap(n)];
      calls := calls + [n];
      todo := todo - {n};
    }
    ValuesImage(processed, nodes, nodeMap);
  }

  /** A map that sends every node to its image has the image of the node set as its values. */
  lemma ValuesImage<N, N2>(processed: map<N, N2>, nodes: set<N>, nodeMap: N -> N2)
    requires processed.Keys == nodes
    requires forall n :: n in processed ==> processed[n] == nodeMap(n)
    ensures processed.Values == Image(nodes, nodeMap)
  {
    forall y | y in Image(nodes, nodeMap) ensures y in processed.Values {
      var x :| x in nodes && nodeMap(x) == y;
      assert processed[x] == y;
    }
  }

  // ---------------------------------------------------------------- mutators over labels

  /**
    `map_nodes(f)` on a graph whose nodes are labels: the mutator runs once on every
    node; it is modelled as the new attribute map it leaves, computed from the node
    and its attributes before the call.
   */
  method MapNodes<V, E>(g: Graph<GraphLabel<V>, E>, f: (GraphLabel<V>, map<string, V>) -> map<string, V>)
    modifies g.nodes
    ensures forall n :: n in g.nodes ==> n.attrs == f(n, old(n.attrs))
  {
    var todo := g.nodes;
    while todo != {}
      invariant todo <= g.nodes
      invariant forall n :: n in g.nodes - todo ==> n.attrs == f(n, old(n.attrs))
      invariant forall n :: n in todo ==> n.attrs == old(n.attrs)
      decreases todo
    {
      var n :| n in todo;
      n.attrs := f(n, n.attrs);
      todo := todo - {n};
    }
  }

  /** The edge objects of an edge sequence. */
  function EdgeObjects<N, V>(es: seq<Edge<N, GraphLabel<V>>>): set<GraphLabel<V>> {
    set i | 0 <= i < |es| :: es[i].2
  }

  /**
    The attributes of edge object `o` after the mutator has run over `es` in order,
    starting from `a`.  One object may label several edges; it is then updated once per edge.
   */
  function Replay<N, V>(a: map<string, V>, o: GraphLabel<V>, es: seq<Edge<N, GraphLabel<V>>>, f: (N, N, map<string, V>) -> map<string, V>): (r: map<string, V>)
    ensures r == a || exists i :: 0 <= i < |es| && es[i].2 == o && r == f(es[i].0, es[i].1, Replay(a, o, es[..i], f))
  {
    if es == [] then a
    else
      var init := es[..|es| - 1];
      var prev := Replay(a, o, init, f);
      var e := es[|es| - 1];
      assert forall i :: 0 <= i < |init| ==> init[i] == es[i] && init[..i] == es[..i];
      if e.2 == o then f(e.0, e.1, prev) else prev
  }

  /** An object that labels no edge is left alone by the replay. */
  lemma {:induction false} ReplayUntouched<N, V>(a: map<string, V>, o: GraphLabel<V>, es: seq<Edge<N, GraphLabel<V>>>, f: (N, N, map<string, V>) -> map<string, V>)
    requires o !in EdgeObjects(es)
    ensures Replay(a, o, es, f) == a
  {
    if es != [] {
      var init := es[..|es| - 1];
      assert EdgeObjects(init) <= EdgeObjects(es) by {
        forall x | x in EdgeObjects(init) ensures x in EdgeObjects(es) {
          var i :| 0 <= i < |init| && init[i].2 == x;
          assert es[i].2 == x;
        }
      }
      ReplayUntouched(a, o, init, f);
      assert es[|es| - 1].2 in EdgeObjects(es);
    }
  }

  /**
    `map_edges(f)` on a graph whose edge objects are labels: the mutator runs once per
    edge, in edge order; it is modelled as the new attribute map of the edge object,
    computed from the endpoints and the object's current attributes.
   */
  method MapEdges<N(==), V>(g: Graph<N, GraphLabel<V>>, f: (N, N, map<string, V>) -> map<string, V>)
    modifies EdgeObjects(g.edges)
    ensures forall o :: o in EdgeObjects(g.edges) ==> o.attrs == Replay(old(o.attrs), o, g.edges, f)
  {
    var i := 0;
    while i < |g.edges|
      invariant 0 <= i <= |g.edges|
      invariant forall o :: o in EdgeObjects(g.edges) ==> o.attrs == Replay(old(o.attrs), o, g.edges[..i], f)
    {
      var e := g.edges[i];
      assert g.edges[..i + 1][..i] == g.edges[..i];
      assert e.2 in EdgeObjects(g.edges);
      e.2.attrs := f(e.0, e.1, e.2.attrs);
      i := i + 1;
    }
    assert g.edges[..|g.edges|] == g.edges;
  }

  // ---------------------------------------------------------------- GraphObj

  /** The label class defined in graph.py: like GraphLabel, but its name is a plain writable field. */
  class GraphObj<V> {
    var name: string
    var attrs: map<string, V>

    constructor (name: string, attrs: map<string, V>)
      ensures this.name == name && this.attrs == attrs
    {
      this.name := name;
      this.attrs := attrs;
    }

    /** `obj[key]`: the stored value, or `KeyError`. */
    function Get(key: string): (r: Result<V, KeyError>)
      reads this
      ensures r.Fail? <==> key !in attrs
      ensures r.Ok? ==> r.value == attrs[key]
    {
      Lookup(attrs, key)
    }

    /** `obj[key] = value` */
    method Set(key: string, value: V)
      modifies this
      ensures attrs == old(attrs)[key := value] && name == old(name)
      ensures Get(key) == Ok(value)
      ensures forall k :: k != key ==> Get(k) == old(Get(k))
    {
      attrs := attrs[key := value];
    }
  }
}
