/**
  `out_degree`: a single `send_collect` round in which every edge sends one message to
  its source and none to its destination, and every node stores the number of messages
  it received under `out_degree`.
 */
module OutDegree {
  import opened Graphs
  import opened GraphLabels
  import opened Engine

  type Attrs = map<string, Value>

  /** The edges leaving `n`, as positions in the edge sequence (parallel edges count apart). */
  ghost function OutEdges<N, E>(edges: seq<Edge<N, E>>, n: N): set<nat> {
    set i: nat | i < |edges| && edges[i].0 == n
  }

  /** The emitter: `[1]` for the source, nothing for the destination. */
  function OutEmit<E>(src: Attrs, dst: Attrs, e: E): (r: (seq<int>, seq<int>))
    ensures |r.0| == 1 && r.0[0] == 1
    ensures r.1 == []
  {
    ([1], [])
  }

  /** A node's attributes after the collector: `out_degree` is the number of messages. */
  function OutCollected(a: Attrs, msgs: seq<int>): (r: Attrs)
    ensures r.Keys == a.Keys + {"out_degree"}
    ensures forall k :: k in a && k != "out_degree" ==> r[k] == a[k]
  {
    a["out_degree" := IntVal(|msgs|)]
  }

  lemma OutCanEmit<N, E>(edges: seq<Edge<N, E>>, s: map<N, Attrs>)
    requires Covers(s.Keys, edges)
    ensures CanEmit(edges, s, OutEmit) && CanCollect(edges, s, OutEmit, OutCollected)
  {
  }

  /** One round of `send_collect` with the out-degree emitter and collector. */
  function OutStep<N(==), E>(edges: seq<Edge<N, E>>, s: map<N, Attrs>): (r: map<N, Attrs>)
    requires Covers(s.Keys, edges)
    ensures r.Keys == s.Keys
  {
    OutCanEmit(edges, s);
    Superstep(edges, s, OutEmit, OutCollected)
  }

  lemma CoversPrefix<N, E>(nodes: set<N>, edges: seq<Edge<N, E>>, k: nat)
    requires Covers(nodes, edges) && k <= |edges|
    ensures Covers(nodes, edges[..k])
  {
    assert forall i :: 0 <= i < k ==> edges[..k][i] == edges[i];
  }

  lemma OutEdgesSnoc<N, E>(edges: seq<Edge<N, E>>, e: Edge<N, E>, n: N)
    ensures OutEdges(edges + [e], n) == OutEdges(edges, n) + (if e.0 == n then {|edges|} else {})
    ensures |edges| !in OutEdges(edges, n)
  {
    var es := edges + [e];
    forall i: nat | i < |edges| ensures es[i] == edges[i] { }
  }

  /**
    What a node receives: one `1` per edge it is the source of, whatever the edges that
    end at it.
   */
  lemma {:induction false} OutInbox<N, E>(edges: seq<Edge<N, E>>, s: map<N, Attrs>, n: N)
    requires Covers(s.Keys, edges)
    ensures CanEmit(edges, s, OutEmit)
    ensures |Inbox(edges, s, OutEmit, n)| == |OutEdges(edges, n)|
    ensures forall x :: x in Inbox(edges, s, OutEmit, n) ==> x == 1
    decreases |edges|
  {
    OutCanEmit(edges, s);
    if edges != [] {
      var k := |edges| - 1;
      var init := edges[..k];
      CoversPrefix(s.Keys, edges, k);
      OutInbox(init, s, n);
      OutInboxSnoc(edges, s, n);
      assert edges == init + [edges[k]];
      OutEdgesSnoc(init, edges[k], n);
    }
  }

  /** The last edge adds a `1` to its source's inbox and nothing to anyone else's. */
  lemma OutInboxSnoc<N, E>(edges: seq<Edge<N, E>>, s: map<N, Attrs>, n: N)
    requires Covers(s.Keys, edges) && edges != []
    ensures CanEmit(edges, s, OutEmit) && CanEmit(edges[..|edges| - 1], s, OutEmit)
    ensures Inbox(edges, s, OutEmit, n)
         == Inbox(edges[..|edges| - 1], s, OutEmit, n) + (if edges[|edges| - 1].0 == n then [1] else [])
  {
    OutCanEmit(edges, s);
    CoversPrefix(s.Keys, edges, |edges| - 1);
    OutCanEmit(edges[..|edges| - 1], s);
  }

  /** After the round, `out_degree` is the number of edges leaving the node, and no other attribute changes. */
  lemma OutStepAt<N, E>(edges: seq<Edge<N, E>>, s: map<N, Attrs>, n: N)
    requires Covers(s.Keys, edges) && n in s
    ensures OutStep(edges, s)[n] == s[n]["out_degree" := IntVal(|OutEdges(edges, n)|)]
  {
    OutInbox(edges, s, n);
  }

  /** A node with no outgoing edge gets `out_degree` 0: it is given an empty list. */
  lemma OutStepNoOutEdges<N, E>(edges: seq<Edge<N, E>>, s: map<N, Attrs>, n: N)
    requires Covers(s.Keys, edges) && n in s
    requires forall i :: 0 <= i < |edges| ==> edges[i].0 != n
    ensures OutStep(edges, s)[n]["out_degree"] == IntVal(0)
  {
    OutStepAt(edges, s, n);
    assert OutEdges(edges, n) == {};
  }

  /** An edge whose source is not `n` leaves `n`'s count where it was, even one that ends at `n`. */
  lemma OutStepOtherEdge<N, E>(edges: seq<Edge<N, E>>, e: Edge<N, E>, s: map<N, Attrs>, n: N)
    requires Covers(s.Keys, edges + [e]) && n in s && e.0 != n
    ensures Covers(s.Keys, edges)
    ensures OutStep(edges + [e], s)[n] == OutStep(edges, s)[n]
  {
    CoversPrefix(s.Keys, edges + [e], |edges|);
    assert (edges + [e])[..|edges|] == edges;
    OutStepAt(edges + [e], s, n);
    OutStepAt(edges, s, n);
    OutEdgesSnoc(edges, e, n);
  }

  // ---------------------------------------------------------------- the degree sum

  /** The edges whose source is one of `ns`. */
  ghost function EdgesFrom<N, E>(edges: seq<Edge<N, E>>, ns: seq<N>): set<nat> {
    set i: nat | i < |edges| && edges[i].0 in ns
  }

  /** The sum of `out_degree` over the nodes `ns` (0 for a node without one). */
  function DegreeSum<N>(s: map<N, Attrs>, ns: seq<N>): int {
    if ns == [] then 0
    else
      var n := ns[|ns| - 1];
      DegreeSum(s, ns[..|ns| - 1]) + (if n in s && "out_degree" in s[n] && s[n]["out_degree"].IntVal? then s[n]["out_degree"].i else 0)
  }

  /** Adding node `n` to the list adds the edges leaving `n`, which no node already listed has. */
  lemma EdgesFromSnoc<N, E>(edges: seq<Edge<N, E>>, ns: seq<N>, n: N)
    requires n !in ns
    ensures EdgesFrom(edges, ns + [n]) == EdgesFrom(edges, ns) + OutEdges(edges, n)
    ensures |EdgesFrom(edges, ns + [n])| == |EdgesFrom(edges, ns)| + |OutEdges(edges, n)|
  {
    assert forall x :: x in ns + [n] <==> x in ns || x == n;
    assert EdgesFrom(edges, ns) * OutEdges(edges, n) == {};
  }

  lemma {:induction false} DegreeSumEdges<N, E>(edges: seq<Edge<N, E>>, s: map<N, Attrs>, ns: seq<N>)
    requires Covers(s.Keys, edges)
    requires forall i, j :: 0 <= i < j < |ns| ==> ns[i] != ns[j]
    requires forall i :: 0 <= i < |ns| ==> ns[i] in s
    ensures DegreeSum(OutStep(edges, s), ns) == |EdgesFrom(edges, ns)|
    decreases |ns|
  {
    if ns != [] {
      var k := |ns| - 1;
      var init, n := ns[..k], ns[k];
      assert ns == init + [n];
      DegreeSumEdges(edges, s, init);
      OutStepAt(edges, s, n);
      EdgesFromSnoc(edges, init, n);
    }
  }

  /** When every source is listed, every edge is counted. */
  lemma {:induction false} EdgesFromAll<N, E>(edges: seq<Edge<N, E>>, ns: seq<N>)
    requires forall i :: 0 <= i < |edges| ==> edges[i].0 in ns
    ensures |EdgesFrom(edges, ns)| == |edges|
    decreases |edges|
  {
    if edges != [] {
      var k := |edges| - 1;
      var init := edges[..k];
      assert forall i :: 0 <= i < k ==> init[i] == edges[i];
      EdgesFromAll(init, ns);
      assert EdgesFrom(edges, ns) == EdgesFrom(init, ns) + {k};
    }
  }

  /**
    Summed over the whole node set (listed once each, in any order), the out-degrees
    after the round add up to the number of edges, since every source is a node.
   */
  lemma OutStepSum<N, E>(edges: seq<Edge<N, E>>, s: map<N, Attrs>, ns: seq<N>)
    requires Covers(s.Keys, edges)
    requires forall i, j :: 0 <= i < j < |ns| ==> ns[i] != ns[j]
    requires forall n :: n in ns <==> n in s
    ensures DegreeSum(OutStep(edges, s), ns) == |edges|
  {
    DegreeSumEdges(edges, s, ns);
    EdgesFromAll(edges, ns);
  }

  // ---------------------------------------------------------------- the method

  /** The collector: `node['out_degree'] = len(list(msgs))`. */
  method OutCollector(node: GraphLabel<Value>, msgs: seq<int>)
    modifies node
    ensures node.attrs == OutCollected(old(node.attrs), msgs)
  {
    node.Set("out_degree", IntVal(|msgs|));
  }

  /** The collect phase: every node of the graph gets one collector call with its inbox. */
  method OutCollectAll<E>(g: Graph<GraphLabel<Value>, E>, ghost pre: map<GraphLabel<Value>, Attrs>, agg: map<GraphLabel<Value>, seq<int>>)
    requires Covers(g.nodes, g.edges) && pre == Snapshot(g.nodes)
    requires CanEmit(g.edges, pre, OutEmit)
    requires forall n :: Received(agg, n) == Inbox(g.edges, pre, OutEmit, n)
    modifies g.nodes
    ensures Snapshot(g.nodes) == OutStep(g.edges, pre)
  {
    OutCollectEach(g.nodes, pre, agg);
    OutCanEmit(g.edges, pre);
    forall n | n in g.nodes ensures n.attrs == OutStep(g.edges, pre)[n] {
      assert OutStep(g.edges, pre)[n] == OutCollected(pre[n], Inbox(g.edges, pre, OutEmit, n));
    }
  }

  /** The `for node in self.nodes` loop: one collector call per node, with its aggregated list. */
  method OutCollectEach(nodes: set<GraphLabel<Value>>, ghost pre: map<GraphLabel<Value>, Attrs>, agg: map<GraphLabel<Value>, seq<int>>)
    requires forall n :: n in nodes ==> n in pre && n.attrs == pre[n]
    modifies nodes
    ensures forall n :: n in nodes ==> n.attrs == OutCollected(pre[n], Received(agg, n))
  {
    var todo := nodes;
    while todo != {}
      invariant todo <= nodes
      invariant forall n :: n in nodes - todo ==> n.attrs == OutCollected(pre[n], Received(agg, n))
      invariant forall n :: n in todo ==> n.attrs == pre[n]
      decreases todo
    {
      var n :| n in todo;
      OutCollector(n, Received(agg, n));
      todo := todo - {n};
    }
  }

  /**
    `out_degree(g)`: exactly one `send_collect` round.  Afterwards every node's
    `out_degree` is the number of edges leaving it, and nothing else has changed.
   */
  method OutDegree<E>(g: Graph<GraphLabel<Value>, E>)
    requires g.Valid()
    modifies g.nodes
    ensures Covers(g.nodes, g.edges)
    ensures Snapshot(g.nodes) == OutStep(g.edges, old(Snapshot(g.nodes)))
    ensures forall n :: n in g.nodes ==> n.attrs == old(n.attrs)["out_degree" := IntVal(|OutEdges(g.edges, n)|)]
  {
    EndpointsCovered(g.nodes, g.edges);
    ghost var pre: map<GraphLabel<Value>, Attrs> := Snapshot(g.nodes);
    OutCanEmit(g.edges, pre);
    var agg := SendPhase(g, OutEmit);
    OutCollectAll(g, pre, agg);
    forall n | n in g.nodes ensures n.attrs == old(n.attrs)["out_degree" := IntVal(|OutEdges(g.edges, n)|)] {
      OutStepAt(g.edges, pre, n);
    }
  }
}
