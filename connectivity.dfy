/**
  Undirected connectivity over the edge sequence: two nodes are linked when a path of
  edges, each used in either direction, joins them.  This is the relation whose classes
  the connected-components labelling must name.
 */
module Connectivity {
  import opened Graphs

  /** Edge `e` joins `a` and `b`, in one direction or the other. */
  ghost predicate Joins<N, E>(e: Edge<N, E>, a: N, b: N) {
    (e.0 == a && e.1 == b) || (e.0 == b && e.1 == a)
  }

  ghost predicate Adjacent<N, E>(edges: seq<Edge<N, E>>, a: N, b: N) {
    exists j :: 0 <= j < |edges| && Joins(edges[j], a, b)
  }

  /**
    `p` is a walk from `a` to `b`: it ends at `b`, its last step is an edge, and what is
    left before that step is a walk from `a`.
   */
  ghost predicate IsPath<N, E>(edges: seq<Edge<N, E>>, a: N, older p: seq<N>, b: N)
    decreases |p|
  {
    && |p| > 0 && p[|p| - 1] == b
    && if |p| == 1 then a == b else
         && Adjacent(edges, p[|p| - 2], b)
         && IsPath(edges, a, p[..|p| - 1], p[|p| - 2])
  }

  /** The same walk read index by index: it starts at `a`, ends at `b`, and every two
      consecutive nodes are adjacent. */
  ghost predicate Steps<N, E>(edges: seq<Edge<N, E>>, a: N, p: seq<N>, b: N) {
    && |p| > 0 && p[0] == a && p[|p| - 1] == b
    && forall i :: 0 <= i < |p| - 1 ==> Adjacent(edges, p[i], p[i + 1])
  }

  lemma {:induction false} PathSteps<N, E>(edges: seq<Edge<N, E>>, a: N, p: seq<N>, b: N)
    ensures IsPath(edges, a, p, b) <==> Steps(edges, a, p, b)
    decreases |p|
  {
    if |p| > 1 {
      var init := p[..|p| - 1];
      PathSteps(edges, a, init, p[|p| - 2]);
      if Steps(edges, a, p, b) {
        assert Steps(edges, a, init, p[|p| - 2]) by {
          forall i | 0 <= i < |init| - 1 ensures Adjacent(edges, init[i], init[i + 1]) {
            assert init[i] == p[i] && init[i + 1] == p[i + 1];
          }
        }
        assert Adjacent(edges, p[|p| - 2], p[|p| - 1]);
      }
      if IsPath(edges, a, p, b) {
        forall i | 0 <= i < |p| - 1 ensures Adjacent(edges, p[i], p[i + 1]) {
          if i < |p| - 2 {
            assert init[i] == p[i] && init[i + 1] == p[i + 1];
          }
        }
        assert p[0] == init[0];
      }
    }
  }

  ghost predicate Linked<N, E>(edges: seq<Edge<N, E>>, a: N, b: N) {
    exists p :: IsPath(edges, a, p, b)
  }

  /** No edge touches `n`. */
  ghost predicate Isolated<N, E>(edges: seq<Edge<N, E>>, n: N) {
    forall i :: 0 <= i < |edges| ==> edges[i].0 != n && edges[i].1 != n
  }

  lemma LinkedRefl<N, E>(edges: seq<Edge<N, E>>, a: N)
    ensures Linked(edges, a, a)
  {
    assert IsPath(edges, a, [a], a);
  }

  /** The endpoints of every edge are linked, both ways round. */
  lemma LinkedEdge<N, E>(edges: seq<Edge<N, E>>, i: nat)
    requires i < |edges|
    ensures Linked(edges, edges[i].0, edges[i].1) && Linked(edges, edges[i].1, edges[i].0)
  {
    var e := edges[i];
    assert Joins(edges[i], e.0, e.1) && Joins(edges[i], e.1, e.0);
    PathSteps(edges, e.0, [e.0, e.1], e.1);
    PathSteps(edges, e.1, [e.1, e.0], e.0);
  }

  lemma LinkedSym<N, E>(edges: seq<Edge<N, E>>, a: N, b: N)
    requires Linked(edges, a, b)
    ensures Linked(edges, b, a)
  {
    var p :| IsPath(edges, a, p, b);
    PathSteps(edges, a, p, b);
    var r := seq(|p|, i requires 0 <= i < |p| => p[|p| - 1 - i]);
    forall i | 0 <= i < |r| - 1 ensures Adjacent(edges, r[i], r[i + 1]) {
      var k := |p| - 2 - i;
      assert Adjacent(edges, p[k], p[k + 1]);
      var j :| 0 <= j < |edges| && Joins(edges[j], p[k], p[k + 1]);
      assert Joins(edges[j], r[i], r[i + 1]);
    }
    PathSteps(edges, b, r, a);
  }

  lemma LinkedTrans<N, E>(edges: seq<Edge<N, E>>, a: N, b: N, c: N)
    requires Linked(edges, a, b) && Linked(edges, b, c)
    ensures Linked(edges, a, c)
  {
    var p :| IsPath(edges, a, p, b);
    var q :| IsPath(edges, b, q, c);
    PathSteps(edges, a, p, b);
    PathSteps(edges, b, q, c);
    var r := p + q[1..];
    forall i | 0 <= i < |r| - 1 ensures Adjacent(edges, r[i], r[i + 1]) {
      if i < |p| - 1 {
        assert r[i] == p[i] && r[i + 1] == p[i + 1];
      } else {
        var k := i - |p| + 1;
        assert r[i] == q[k] && r[i + 1] == q[k + 1];
      }
    }
    PathSteps(edges, a, r, c);
  }

  /** A walk that starts inside a node set covering the edges ends inside it. */
  lemma {:induction false} PathInside<N, E>(edges: seq<Edge<N, E>>, a: N, p: seq<N>, b: N, nodes: set<N>)
    requires IsPath(edges, a, p, b) && a in nodes && Covers(nodes, edges)
    ensures b in nodes
    decreases |p|
  {
    if |p| > 1 {
      var j :| 0 <= j < |edges| && Joins(edges[j], p[|p| - 2], b);
      if edges[j].0 == b {
        assert edges[j].0 in nodes;
      } else {
        assert edges[j].1 in nodes;
      }
    }
  }

  lemma LinkedInside<N, E>(edges: seq<Edge<N, E>>, a: N, b: N, nodes: set<N>)
    requires Linked(edges, a, b) && a in nodes && Covers(nodes, edges)
    ensures b in nodes
  {
    var p :| IsPath(edges, a, p, b);
    PathInside(edges, a, p, b, nodes);
  }

  /** A walk of more than one node leaves its start along some edge. */
  lemma PathLeaves<N, E>(edges: seq<Edge<N, E>>, a: N, p: seq<N>, b: N)
    requires IsPath(edges, a, p, b)
    ensures |p| == 1 || !Isolated(edges, a)
  {
    PathSteps(edges, a, p, b);
    if |p| > 1 {
      assert Adjacent(edges, p[0], p[1]);
      var j :| 0 <= j < |edges| && Joins(edges[j], p[0], p[1]);
      assert edges[j].0 == a || edges[j].1 == a;
    }
  }

  /** An isolated node is linked to itself only. */
  lemma LinkedIsolated<N, E>(edges: seq<Edge<N, E>>, a: N, b: N)
    requires Isolated(edges, a) && Linked(edges, a, b)
    ensures b == a
  {
    var p :| IsPath(edges, a, p, b);
    PathLeaves(edges, a, p, b);
  }
}
