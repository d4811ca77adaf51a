/**
  The `send_collect` superstep.  Every edge's emitter produces a message list for the
  edge's source and one for its destination; the lists are routed to those nodes and
  concatenated per node in edge order; then every node of the graph gets exactly one
  collector call with what it received (an empty list when it received nothing).

  Emitters read node state; they are given the state of both endpoints as it was
  before the round (`pre`).  Every emitter call happens before any collector call, so
  this is what an emitter returning lists sees; an emitter returning a lazy iterator,
  drained later by the collectors, is not modelled.
 */
module Engine {
  import opened Graphs
  import opened GraphLabels

  /** Every emitter call can be made: both endpoints have a pre-round state the emitter accepts. */
  ghost predicate CanEmit<N, E, S, M>(edges: seq<Edge<N, E>>, pre: map<N, S>, emit: (S, S, E) --> (seq<M>, seq<M>)) {
    forall i :: 0 <= i < |edges| ==>
      edges[i].0 in pre && edges[i].1 in pre && emit.requires(pre[edges[i].0], pre[edges[i].1], edges[i].2)
  }

  /** The two message lists the emitter produces for edge `e`. */
  function EmitOn<N(==), E, S, M>(e: Edge<N, E>, pre: map<N, S>, emit: (S, S, E) --> (seq<M>, seq<M>)): (seq<M>, seq<M>)
    requires e.0 in pre && e.1 in pre && emit.requires(pre[e.0], pre[e.1], e.2)
  {
    emit(pre[e.0], pre[e.1], e.2)
  }

  lemma CanEmitPrefix<N, E, S, M>(edges: seq<Edge<N, E>>, k: nat, pre: map<N, S>, emit: (S, S, E) --> (seq<M>, seq<M>))
    requires CanEmit(edges, pre, emit) && k <= |edges|
    ensures CanEmit(edges[..k], pre, emit)
  {
    forall i | 0 <= i < k ensures edges[..k][i] == edges[i] { }
  }

  /** The addressed messages: for each edge in order, `(src, src messages)` then `(dst, dst messages)`. */
  function Emitted<N(==), E, S, M>(edges: seq<Edge<N, E>>, pre: map<N, S>, emit: (S, S, E) --> (seq<M>, seq<M>)): (r: seq<(N, seq<M>)>)
    requires CanEmit(edges, pre, emit)
    ensures |r| == 2 * |edges|
  {
    if edges == [] then []
    else
      var e := edges[|edges| - 1];
      CanEmitPrefix(edges, |edges| - 1, pre, emit);
      var out := EmitOn(e, pre, emit);
      Emitted(edges[..|edges| - 1], pre, emit) + [(e.0, out.0), (e.1, out.1)]
  }

  /** The concatenation, in order, of the message lists addressed to `n`. */
  function MessagesFor<N(==), M>(addressed: seq<(N, seq<M>)>, n: N): (r: seq<M>)
    ensures forall m :: m in r ==> exists i :: 0 <= i < |addressed| && addressed[i].0 == n && m in addressed[i].1
  {
    if addressed == [] then []
    else
      var init := addressed[..|addressed| - 1];
      var last := addressed[|addressed| - 1];
      assert forall i :: 0 <= i < |init| ==> init[i] == addressed[i];
      MessagesFor(init, n) + (if last.0 == n then last.1 else [])
  }

  /** Nothing is addressed to a node that no entry names. */
  lemma {:induction false} MessagesForNone<N, M>(addressed: seq<(N, seq<M>)>, n: N)
    requires forall i :: 0 <= i < |addressed| ==> addressed[i].0 != n
    ensures MessagesFor(addressed, n) == []
  {
    if addressed != [] {
      MessagesForNone(addressed[..|addressed| - 1], n);
    }
  }

  /**
    What node `n` receives in one round, stated per edge: for each edge in order, the
    source list if `n` is its source, then the destination list if `n` is its destination
    (so on a self-loop the source part comes first).
   */
  function Inbox<N(==), E, S, M>(edges: seq<Edge<N, E>>, pre: map<N, S>, emit: (S, S, E) --> (seq<M>, seq<M>), n: N): seq<M>
    requires CanEmit(edges, pre, emit)
  {
    if edges == [] then []
    else
      var e := edges[|edges| - 1];
      CanEmitPrefix(edges, |edges| - 1, pre, emit);
      var out := EmitOn(e, pre, emit);
      Inbox(edges[..|edges| - 1], pre, emit, n) + (if e.0 == n then out.0 else []) + (if e.1 == n then out.1 else [])
  }

  /** Routing the addressed messages and concatenating per node gives exactly the per-edge inbox. */
  lemma {:induction false} RoutedIsInbox<N, E, S, M>(edges: seq<Edge<N, E>>, pre: map<N, S>, emit: (S, S, E) --> (seq<M>, seq<M>), n: N)
    requires CanEmit(edges, pre, emit)
    ensures MessagesFor(Emitted(edges, pre, emit), n) == Inbox(edges, pre, emit, n)
  {
    if edges != [] {
      var init := edges[..|edges| - 1];
      var e := edges[|edges| - 1];
      CanEmitPrefix(edges, |edges| - 1, pre, emit);
      var out := EmitOn(e, pre, emit);
      var a := Emitted(init, pre, emit);
      RoutedIsInbox(init, pre, emit, n);
      var a1 := a + [(e.0, out.0)];
      assert Emitted(edges, pre, emit) == a1 + [(e.1, out.1)];
      assert (a1 + [(e.1, out.1)])[..|a1|] == a1;
      assert a1[..|a|] == a;
    }
  }

  /** A node with no incident edge receives nothing. */
  lemma {:induction false} InboxIsolated<N, E, S, M>(edges: seq<Edge<N, E>>, pre: map<N, S>, emit: (S, S, E) --> (seq<M>, seq<M>), n: N)
    requires CanEmit(edges, pre, emit)
    requires forall i :: 0 <= i < |edges| ==> edges[i].0 != n && edges[i].1 != n
    ensures Inbox(edges, pre, emit, n) == []
  {
    if edges != [] {
      CanEmitPrefix(edges, |edges| - 1, pre, emit);
      InboxIsolated(edges[..|edges| - 1], pre, emit, n);
    }
  }

  /**
    No message is addressed outside the node states: every emitter call needs both endpoints'
    states, so a node without one is on no edge and receives nothing.
   */
  lemma InboxOutside<N, E, S, M>(edges: seq<Edge<N, E>>, pre: map<N, S>, emit: (S, S, E) --> (seq<M>, seq<M>), n: N)
    requires CanEmit(edges, pre, emit) && n !in pre
    ensures Inbox(edges, pre, emit, n) == []
  {
    InboxIsolated(edges, pre, emit, n);
  }

  /** Every message an edge emits towards `n` is in `n`'s inbox. */
  lemma {:induction false} InboxFromEdge<N, E, S, M>(edges: seq<Edge<N, E>>, pre: map<N, S>, emit: (S, S, E) --> (seq<M>, seq<M>), n: N, i: nat)
    requires CanEmit(edges, pre, emit) && i < |edges|
    ensures edges[i].0 == n ==> forall x :: x in EmitOn(edges[i], pre, emit).0 ==> x in Inbox(edges, pre, emit, n)
    ensures edges[i].1 == n ==> forall x :: x in EmitOn(edges[i], pre, emit).1 ==> x in Inbox(edges, pre, emit, n)
  {
    CanEmitPrefix(edges, |edges| - 1, pre, emit);
    if i < |edges| - 1 {
      var init := edges[..|edges| - 1];
      assert init[i] == edges[i];
      InboxFromEdge(init, pre, emit, n, i);
    }
  }

  /** Conversely, every message in `n`'s inbox was emitted towards `n` by an incident edge. */
  lemma {:induction false} InboxOrigin<N, E, S, M>(edges: seq<Edge<N, E>>, pre: map<N, S>, emit: (S, S, E) --> (seq<M>, seq<M>), n: N, x: M)
    requires CanEmit(edges, pre, emit)
    requires x in Inbox(edges, pre, emit, n)
    ensures exists i :: 0 <= i < |edges| && (
              || (edges[i].0 == n && x in EmitOn(edges[i], pre, emit).0)
              || (edges[i].1 == n && x in EmitOn(edges[i], pre, emit).1))
  {
    var init := edges[..|edges| - 1];
    var e := edges[|edges| - 1];
    CanEmitPrefix(edges, |edges| - 1, pre, emit);
    var out := EmitOn(e, pre, emit);
    if x in Inbox(init, pre, emit, n) {
      InboxOrigin(init, pre, emit, n, x);
      var i :| 0 <= i < |init| &&
        ((init[i].0 == n && x in EmitOn(init[i], pre, emit).0) || (init[i].1 == n && x in EmitOn(init[i], pre, emit).1));
      assert init[i] == edges[i];
    } else {
      assert (e.0 == n && x in out.0) || (e.1 == n && x in out.1);
      assert edges[|edges| - 1] == e;
    }
  }

  /**
    The aggregation loop of `send_collect`: `agg_msgs[node]` is the first list addressed to
    the node, later lists being chained after it.
   */
  method Aggregate<N(==), M>(addressed: seq<(N, seq<M>)>) returns (agg: map<N, seq<M>>)
    ensures forall n :: n in agg <==> exists i :: 0 <= i < |addressed| && addressed[i].0 == n
    ensures forall n :: n in agg ==> agg[n] == MessagesFor(addressed, n)
    ensures forall n :: n !in agg ==> MessagesFor(addressed, n) == []
  {
    agg := map[];
    var i := 0;
    while i < |addressed|
      invariant 0 <= i <= |addressed|
      invariant forall n :: n in agg <==> exists j :: 0 <= j < i && addressed[j].0 == n
      invariant forall n :: n in agg ==> agg[n] == MessagesFor(addressed[..i], n)
      invariant forall n :: n !in agg ==> MessagesFor(addressed[..i], n) == []
    {
      var (n, msgs) := addressed[i];
      assert addressed[..i + 1][..i] == addressed[..i];
      agg := agg[n := if n in agg then agg[n] + msgs else msgs];
      i := i + 1;
    }
    assert addressed[..i] == addressed;
  }

  /** `agg_msgs.get(node, [])`: a node's aggregated list, empty when nothing was addressed to it. */
  function Received<N, M>(agg: map<N, seq<M>>, n: N): seq<M> {
    if n in agg then agg[n] else []
  }

  /**
    The send phase of one superstep: emit on every edge from the pre-round state, then
    aggregate.  Looking a node up with an empty default (`agg_msgs.get(node, [])`) gives
    exactly its inbox.
   */
  method Route<N(==), E, S, M>(edges: seq<Edge<N, E>>, pre: map<N, S>, emit: (S, S, E) --> (seq<M>, seq<M>)) returns (agg: map<N, seq<M>>)
    requires CanEmit(edges, pre, emit)
    ensures forall n :: Received(agg, n) == Inbox(edges, pre, emit, n)
  {
    agg := Aggregate(Emitted(edges, pre, emit));
    forall n ensures Received(agg, n) == Inbox(edges, pre, emit, n) {
      RoutedIsInbox(edges, pre, emit, n);
    }
  }

  /** Every node of the graph gets one collector call (and no other node is called). */
  ghost predicate CanCollect<N, E, S, M>(edges: seq<Edge<N, E>>, pre: map<N, S>, emit: (S, S, E) --> (seq<M>, seq<M>), collect: (S, seq<M>) --> S)
    requires CanEmit(edges, pre, emit)
  {
    forall n :: n in pre ==> collect.requires(pre[n], Inbox(edges, pre, emit, n))
  }

  /**
    One superstep on the node states: every node (the keys of `pre`) is replaced by the
    collector's result on its pre-round state and its inbox.
   */
  function Superstep<N(==), E, S, M>(edges: seq<Edge<N, E>>, pre: map<N, S>, emit: (S, S, E) --> (seq<M>, seq<M>), collect: (S, seq<M>) --> S): (post: map<N, S>)
    requires CanEmit(edges, pre, emit) && CanCollect(edges, pre, emit, collect)
    ensures post.Keys == pre.Keys
  {
    map n | n in pre :: collect(pre[n], Inbox(edges, pre, emit, n))
  }

  /**
    The send phase of `send_collect` on a graph whose nodes are labels: the emitters see
    the attributes every node has before the round.
   */
  method SendPhase<V, E, M>(g: Graph<GraphLabel<V>, E>, emit: (map<string, V>, map<string, V>, E) --> (seq<M>, seq<M>))
      returns (agg: map<GraphLabel<V>, seq<M>>)
    requires CanEmit(g.edges, Snapshot(g.nodes), emit)
    ensures forall n :: Received(agg, n) == Inbox(g.edges, Snapshot(g.nodes), emit, n)
  {
    var pre := TakeSnapshot(g.nodes);
    agg := Route(g.edges, pre, emit);
  }
}
