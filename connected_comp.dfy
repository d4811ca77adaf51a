/**
  Connected components by hash-min label propagation.  Every node starts with its own
  label in `cc` and `halt = True`; in every superstep each edge tells each endpoint the
  other endpoint's `cc`, and each node keeps the smallest label it has seen, clearing
  `halt` when that lowered its label.  Supersteps repeat until every node has halted.

  The source builds each initial label as the node's name followed by its object
  identity, and compares labels as strings.  Object identities are unique, so the labels
  are distinct, and labels are only ever compared with each other; the model therefore
  represents the label of node `n` by an integer `id(n)` from an injective function.
 */
module ConnectedComp {
  import opened Graphs
  import opened GraphLabels
  import opened Engine
  import opened Connectivity

  type Attrs = map<string, Value>

  predicate HasCc(a: Attrs) {
    "cc" in a && a["cc"].IntVal?
  }

  function CcOf(a: Attrs): int
    requires HasCc(a)
  {
    a["cc"].i
  }

  /** The `halt` flag is set. */
  predicate Halted(a: Attrs) {
    "halt" in a && a["halt"] == BoolVal(true)
  }

  /** Both attributes the algorithm maintains are present, with the right kinds of value. */
  predicate Ready(a: Attrs) {
    HasCc(a) && "halt" in a && a["halt"].BoolVal?
  }

  ghost predicate AllReady<N>(s: map<N, Attrs>) {
    forall n :: n in s ==> Ready(s[n])
  }

  ghost predicate AllHalted<N>(s: map<N, Attrs>) {
    forall n :: n in s ==> Halted(s[n])
  }

  /** `b` has the same attributes as `a` apart from `cc` and `halt`. */
  ghost predicate SameOtherKeys(a: Attrs, b: Attrs) {
    forall k :: k != "cc" && k != "halt" ==> (k in a <==> k in b) && (k in a ==> a[k] == b[k])
  }

  /** Distinct nodes get distinct initial labels. */
  ghost predicate Injective<N>(id: N -> int, nodes: set<N>) {
    forall a, b :: a in nodes && b in nodes && id(a) == id(b) ==> a == b
  }

  // ---------------------------------------------------------------- initialisation

  /** `init_node`: the node's own label in `cc`, and `halt` set. */
  function CcInit<N>(id: N -> int, n: N, a: Attrs): (r: Attrs)
    ensures Ready(r) && CcOf(r) == id(n) && Halted(r)
    ensures SameOtherKeys(a, r)
  {
    a["cc" := IntVal(id(n))]["halt" := BoolVal(true)]
  }

  /** The state after `init_node` has run on every node of `s`. */
  ghost function CcInitial<N>(id: N -> int, s: map<N, Attrs>): (r: map<N, Attrs>)
    ensures r.Keys == s.Keys && AllReady(r) && AllHalted(r)
  {
    map n | n in s :: CcInit(id, n, s[n])
  }

  // ---------------------------------------------------------------- one superstep

  /** The emitter: the source is told the destination's label and vice versa. */
  function CcEmit<E>(src: Attrs, dst: Attrs, e: E): (r: (seq<int>, seq<int>))
    requires HasCc(src) && HasCc(dst)
    ensures |r.0| == 1 && r.0[0] == CcOf(dst)
    ensures |r.1| == 1 && r.1[0] == CcOf(src)
  {
    ([CcOf(dst)], [CcOf(src)])
  }

  /**
    The running minimum of the collector loop: `c` lowered by every message that is
    strictly smaller than the value reached so far.
   */
  function MinWith(c: int, msgs: seq<int>): (r: int)
    ensures r <= c && forall m :: m in msgs ==> r <= m
    ensures r == c || r in msgs
    decreases |msgs|
  {
    if msgs == [] then c
    else
      var m := MinWith(c, msgs[..|msgs| - 1]);
      assert msgs == msgs[..|msgs| - 1] + [msgs[|msgs| - 1]];
      if msgs[|msgs| - 1] < m then msgs[|msgs| - 1] else m
  }

  /** A node's attributes after the collector has seen `msgs`. */
  function CcCollected(a: Attrs, msgs: seq<int>): (r: Attrs)
    requires HasCc(a)
    ensures Ready(r)
    ensures CcOf(r) <= CcOf(a) && (forall m :: m in msgs ==> CcOf(r) <= m)
    ensures CcOf(r) == CcOf(a) || CcOf(r) in msgs
    ensures Halted(r) <==> forall m :: m in msgs ==> CcOf(a) <= m
    ensures Halted(r) <==> CcOf(r) == CcOf(a)
    ensures SameOtherKeys(a, r)
  {
    var c := MinWith(CcOf(a), msgs);
    a["cc" := IntVal(c)]["halt" := BoolVal(c == CcOf(a))]
  }

  lemma CcCanEmit<N, E>(edges: seq<Edge<N, E>>, s: map<N, Attrs>)
    requires Covers(s.Keys, edges) && AllReady(s)
    ensures CanEmit(edges, s, CcEmit) && CanCollect(edges, s, CcEmit, CcCollected)
  {
  }

  /** One round of `send_collect` with the connected-components emitter and collector. */
  function CcStep<N(==), E>(edges: seq<Edge<N, E>>, s: map<N, Attrs>): (r: map<N, Attrs>)
    requires Covers(s.Keys, edges) && AllReady(s)
    ensures r.Keys == s.Keys && AllReady(r)
  {
    CcCanEmit(edges, s);
    Superstep(edges, s, CcEmit, CcCollected)
  }

  /** A node's state after a round is the collector's result on its inbox. */
  lemma CcStepAt<N, E>(edges: seq<Edge<N, E>>, s: map<N, Attrs>, n: N)
    requires Covers(s.Keys, edges) && AllReady(s) && n in s
    ensures CanEmit(edges, s, CcEmit)
    ensures CcStep(edges, s)[n] == CcCollected(s[n], Inbox(edges, s, CcEmit, n))
  {
    CcCanEmit(edges, s);
  }

  /** What a node receives in a round: the pre-round label of each neighbour, per edge. */
  lemma CcInbox<N, E>(edges: seq<Edge<N, E>>, s: map<N, Attrs>, n: N, x: int)
    requires Covers(s.Keys, edges) && AllReady(s)
    ensures CanEmit(edges, s, CcEmit)
    ensures x in Inbox(edges, s, CcEmit, n) <==>
      exists i :: 0 <= i < |edges| && (
        || (edges[i].0 == n && x == CcOf(s[edges[i].1]))
        || (edges[i].1 == n && x == CcOf(s[edges[i].0])))
  {
    CcCanEmit(edges, s);
    if x in Inbox(edges, s, CcEmit, n) {
      InboxOrigin(edges, s, CcEmit, n, x);
    }
    if exists i :: 0 <= i < |edges| && (
        || (edges[i].0 == n && x == CcOf(s[edges[i].1]))
        || (edges[i].1 == n && x == CcOf(s[edges[i].0])))
    {
      var i :| 0 <= i < |edges| && (
        || (edges[i].0 == n && x == CcOf(s[edges[i].1]))
        || (edges[i].1 == n && x == CcOf(s[edges[i].0])));
      InboxFromEdge(edges, s, CcEmit, n, i);
    }
  }

  /** A round never raises a label, and clears `halt` exactly where it lowered one. */
  lemma CcStepLowers<N, E>(edges: seq<Edge<N, E>>, s: map<N, Attrs>, n: N)
    requires Covers(s.Keys, edges) && AllReady(s) && n in s
    ensures CcOf(CcStep(edges, s)[n]) <= CcOf(s[n])
    ensures Halted(CcStep(edges, s)[n]) <==> CcOf(CcStep(edges, s)[n]) == CcOf(s[n])
    ensures SameOtherKeys(s[n], CcStep(edges, s)[n])
  {
  }

  /** After a round, each endpoint of an edge is at most the other's pre-round label. */
  lemma CcStepNeighbours<N, E>(edges: seq<Edge<N, E>>, s: map<N, Attrs>, i: nat)
    requires Covers(s.Keys, edges) && AllReady(s) && i < |edges|
    ensures CcOf(CcStep(edges, s)[edges[i].0]) <= CcOf(s[edges[i].1])
    ensures CcOf(CcStep(edges, s)[edges[i].1]) <= CcOf(s[edges[i].0])
  {
    var src, dst := edges[i].0, edges[i].1;
    CcInbox(edges, s, src, CcOf(s[dst]));
    CcInbox(edges, s, dst, CcOf(s[src]));
  }

  /** A label that changed in a round came from a neighbour. */
  lemma CcStepSource<N, E>(edges: seq<Edge<N, E>>, s: map<N, Attrs>, n: N)
    requires Covers(s.Keys, edges) && AllReady(s) && n in s
    ensures var c := CcOf(CcStep(edges, s)[n]);
      || c == CcOf(s[n])
      || exists i :: 0 <= i < |edges| && (
           || (edges[i].0 == n && c == CcOf(s[edges[i].1]))
           || (edges[i].1 == n && c == CcOf(s[edges[i].0])))
  {
    var c := CcOf(CcStep(edges, s)[n]);
    CcInbox(edges, s, n, c);
  }

  // ---------------------------------------------------------------- invariants of the run

  /** Every label is the initial label of a node linked to its holder. */
  ghost predicate Rooted<N, E>(edges: seq<Edge<N, E>>, s: map<N, Attrs>, id: N -> int)
    requires AllReady(s)
  {
    forall n {:trigger RootedAt(edges, s, id, n)} :: n in s ==> RootedAt(edges, s, id, n)
  }

  /** The label of `n` is the initial label of a node linked to `n`. */
  ghost predicate RootedAt<N, E>(edges: seq<Edge<N, E>>, s: map<N, Attrs>, id: N -> int, n: N)
    requires n in s && HasCc(s[n])
  {
    exists m :: m in s && Linked(edges, m, n) && CcOf(s[n]) == id(m)
  }

  /** No label is above its holder's initial label. */
  ghost predicate Bounded<N>(s: map<N, Attrs>, id: N -> int)
    requires AllReady(s)
  {
    forall n :: n in s ==> CcOf(s[n]) <= id(n)
  }

  /** The two endpoints of every edge carry the same label. */
  ghost predicate Agree<N, E>(edges: seq<Edge<N, E>>, s: map<N, Attrs>)
    requires Covers(s.Keys, edges) && AllReady(s)
  {
    forall i :: 0 <= i < |edges| ==> CcOf(s[edges[i].0]) == CcOf(s[edges[i].1])
  }

  lemma CcInitialProps<N, E>(edges: seq<Edge<N, E>>, s: map<N, Attrs>, id: N -> int)
    ensures AllReady(CcInitial(id, s)) && AllHalted(CcInitial(id, s))
    ensures forall n :: n in s ==> CcOf(CcInitial(id, s)[n]) == id(n) && SameOtherKeys(s[n], CcInitial(id, s)[n])
    ensures Rooted(edges, CcInitial(id, s), id) && Bounded(CcInitial(id, s), id)
  {
    var s0 := CcInitial(id, s);
    forall n | n in s0 ensures RootedAt(edges, s0, id, n) {
      LinkedRefl(edges, n);
    }
  }

  lemma CcStepRooted<N, E>(edges: seq<Edge<N, E>>, s: map<N, Attrs>, id: N -> int)
    requires Covers(s.Keys, edges) && AllReady(s) && Rooted(edges, s, id)
    ensures Rooted(edges, CcStep(edges, s), id)
  {
    var r := CcStep(edges, s);
    forall n | n in r ensures RootedAt(edges, r, id, n) {
      CcStepSource(edges, s, n);
      var c := CcOf(r[n]);
      if c == CcOf(s[n]) {
        assert RootedAt(edges, s, id, n);
        var m :| m in s && Linked(edges, m, n) && CcOf(s[n]) == id(m);
        assert m in r;
      } else {
        var i :| 0 <= i < |edges| && (
          || (edges[i].0 == n && c == CcOf(s[edges[i].1]))
          || (edges[i].1 == n && c == CcOf(s[edges[i].0])));
        LinkedEdge(edges, i);
        var nb := if edges[i].0 == n && c == CcOf(s[edges[i].1]) then edges[i].1 else edges[i].0;
        assert nb in s && Linked(edges, nb, n) && c == CcOf(s[nb]);
        assert RootedAt(edges, s, id, nb);
        var m :| m in s && Linked(edges, m, nb) && CcOf(s[nb]) == id(m);
        LinkedTrans(edges, m, nb, n);
        assert m in r;
      }
    }
  }

  lemma CcStepBounded<N, E>(edges: seq<Edge<N, E>>, s: map<N, Attrs>, id: N -> int)
    requires Covers(s.Keys, edges) && AllReady(s) && Bounded(s, id)
    ensures Bounded(CcStep(edges, s), id)
  {
    forall n | n in s ensures CcOf(CcStep(edges, s)[n]) <= id(n) {
      CcStepLowers(edges, s, n);
    }
  }

  /** A round in which no label drops leaves the endpoints of every edge agreeing. */
  lemma CcStepHaltedAgree<N, E>(edges: seq<Edge<N, E>>, s: map<N, Attrs>)
    requires Covers(s.Keys, edges) && AllReady(s)
    ensures AllHalted(CcStep(edges, s)) ==> Agree(edges, CcStep(edges, s))
  {
    var r := CcStep(edges, s);
    if AllHalted(r) {
      forall i | 0 <= i < |edges| ensures CcOf(r[edges[i].0]) == CcOf(r[edges[i].1]) {
        CcStepLowers(edges, s, edges[i].0);
        CcStepLowers(edges, s, edges[i].1);
        CcStepNeighbours(edges, s, i);
      }
    }
  }

  /**
    Idempotence at the fixpoint: once labels agree across every edge and every node is
    halted, one more round changes nothing.
   */
  lemma CcStepFixed<N, E>(edges: seq<Edge<N, E>>, s: map<N, Attrs>)
    requires Covers(s.Keys, edges) && AllReady(s) && Agree(edges, s) && AllHalted(s)
    ensures CcStep(edges, s) == s
  {
    var r := CcStep(edges, s);
    forall n | n in s ensures r[n] == s[n] {
      CcStepAt(edges, s, n);
      var msgs := Inbox(edges, s, CcEmit, n);
      forall x | x in msgs ensures x == CcOf(s[n]) {
        CcInbox(edges, s, n, x);
      }
      assert CcOf(r[n]) == CcOf(s[n]) && Halted(r[n]);
      assert r[n]["cc"] == s[n]["cc"] && r[n]["halt"] == s[n]["halt"];
    }
  }

  // ---------------------------------------------------------------- termination

  /** The initial labels of a node set. */
  ghost function Labels<N>(nodes: set<N>, id: N -> int): set<int> {
    set m | m in nodes :: id(m)
  }

  /** The pairs (node, label) such that the label is an initial label below the node's. */
  ghost function Pending<N>(s: map<N, Attrs>, L: set<int>): set<(N, int)>
    requires AllReady(s)
  {
    set n, l | n in s && l in L && l < CcOf(s[n]) :: (n, l)
  }

  /** Rooted labels are initial labels. */
  lemma RootedLabels<N, E>(edges: seq<Edge<N, E>>, s: map<N, Attrs>, id: N -> int)
    requires AllReady(s) && Rooted(edges, s, id)
    ensures forall n :: n in s ==> CcOf(s[n]) in Labels(s.Keys, id)
  {
    forall n | n in s ensures CcOf(s[n]) in Labels(s.Keys, id) {
      assert RootedAt(edges, s, id, n);
      var m :| m in s && Linked(edges, m, n) && CcOf(s[n]) == id(m);
    }
  }

  /**
    Labels only fall and always are initial labels, so the pending pairs never grow, and
    they shrink in a round that leaves some node un-halted.
   */
  lemma CcStepProgress<N, E>(edges: seq<Edge<N, E>>, s: map<N, Attrs>, id: N -> int)
    requires Covers(s.Keys, edges) && AllReady(s) && Rooted(edges, s, id)
    ensures Pending(CcStep(edges, s), Labels(s.Keys, id)) <= Pending(s, Labels(s.Keys, id))
    ensures !AllHalted(CcStep(edges, s)) ==> Pending(CcStep(edges, s), Labels(s.Keys, id)) < Pending(s, Labels(s.Keys, id))
  {
    var r := CcStep(edges, s);
    var L := Labels(s.Keys, id);
    forall p | p in Pending(r, L) ensures p in Pending(s, L) {
      CcStepLowers(edges, s, p.0);
    }
    if !AllHalted(r) {
      var n :| n in r && !Halted(r[n]);
      CcStepLowers(edges, s, n);
      CcStepRooted(edges, s, id);
      RootedLabels(edges, r, id);
      assert (n, CcOf(r[n])) in Pending(s, L);
    }
  }

  // ---------------------------------------------------------------- the run

  /** The state after `k` rounds from `s`. */
  ghost function CcRun<N, E>(edges: seq<Edge<N, E>>, s: map<N, Attrs>, k: nat): (r: map<N, Attrs>)
    requires Covers(s.Keys, edges) && AllReady(s)
    ensures r.Keys == s.Keys && AllReady(r)
  {
    if k == 0 then s else CcStep(edges, CcRun(edges, s, k - 1))
  }

  /** Starting from a rooted and bounded state (the initial state is one), labels stay rooted and bounded. */
  lemma {:induction false} CcRunInvariant<N, E>(edges: seq<Edge<N, E>>, s0: map<N, Attrs>, id: N -> int, k: nat)
    requires Covers(s0.Keys, edges) && AllReady(s0) && Rooted(edges, s0, id) && Bounded(s0, id)
    ensures Rooted(edges, CcRun(edges, s0, k), id) && Bounded(CcRun(edges, s0, k), id)
  {
    if k > 0 {
      var j: nat := k - 1;
      CcRunInvariant(edges, s0, id, j);
      CcRunInvariantStep(edges, s0, id, j);
    }
  }

  lemma CcRunInvariantStep<N, E>(edges: seq<Edge<N, E>>, s0: map<N, Attrs>, id: N -> int, j: nat)
    requires Covers(s0.Keys, edges) && AllReady(s0)
    requires Rooted(edges, CcRun(edges, s0, j), id) && Bounded(CcRun(edges, s0, j), id)
    ensures Rooted(edges, CcRun(edges, s0, j + 1), id) && Bounded(CcRun(edges, s0, j + 1), id)
  {
    CcStepRooted(edges, CcRun(edges, s0, j), id);
    CcStepBounded(edges, CcRun(edges, s0, j), id);
  }

  /** After at least one round, all nodes halted means the endpoints of every edge agree. */
  lemma CcRunHaltedAgree<N, E>(edges: seq<Edge<N, E>>, s0: map<N, Attrs>, k: nat)
    requires Covers(s0.Keys, edges) && AllReady(s0) && k > 0
    ensures AllHalted(CcRun(edges, s0, k)) ==> Agree(edges, CcRun(edges, s0, k))
  {
    CcStepHaltedAgree(edges, CcRun(edges, s0, k - 1));
  }

  /** Round `k` of the run from `s0` halts every node. */
  ghost predicate HaltsAt<N, E>(edges: seq<Edge<N, E>>, s0: map<N, Attrs>, k: nat)
    requires Covers(s0.Keys, edges) && AllReady(s0)
  {
    AllHalted(CcRun(edges, s0, k))
  }

  /** No round before round `r` left every node halted. */
  ghost predicate NoEarlyHalt<N, E>(edges: seq<Edge<N, E>>, s0: map<N, Attrs>, r: nat)
    requires Covers(s0.Keys, edges) && AllReady(s0)
  {
    forall k: nat :: 1 <= k < r ==> !HaltsAt(edges, s0, k)
  }

  lemma NoEarlyHaltExtend<N, E>(edges: seq<Edge<N, E>>, s0: map<N, Attrs>, r: nat)
    requires Covers(s0.Keys, edges) && AllReady(s0)
    requires NoEarlyHalt(edges, s0, r) && !HaltsAt(edges, s0, r)
    ensures NoEarlyHalt(edges, s0, r + 1)
  {
    forall k: nat | 1 <= k < r + 1 ensures !HaltsAt(edges, s0, k) {
      if k < r {
        assert 1 <= k < r;
      } else {
        assert k == r;
      }
    }
  }

  /** The termination measure of the loop after `r` rounds: the number of pending pairs. */
  ghost function Measure<N, E>(edges: seq<Edge<N, E>>, s0: map<N, Attrs>, id: N -> int, r: nat): nat
    requires Covers(s0.Keys, edges) && AllReady(s0)
  {
    |Pending(CcRun(edges, s0, r), Labels(s0.Keys, id))|
  }

  /**
    One more trip round the loop of `connected_comp` shrinks the termination measure:
    the number of pending pairs never grows, and it shrinks unless the round halts every node.
   */
  lemma CcLoopRound<N, E>(edges: seq<Edge<N, E>>, s0: map<N, Attrs>, id: N -> int, r: nat)
    requires Covers(s0.Keys, edges) && AllReady(s0) && Rooted(edges, s0, id) && Bounded(s0, id)
    ensures Measure(edges, s0, id, r + 1) <= Measure(edges, s0, id, r)
    ensures !HaltsAt(edges, s0, r + 1) ==> Measure(edges, s0, id, r + 1) < Measure(edges, s0, id, r)
  {
    var cur := CcRun(edges, s0, r);
    CcRunInvariant(edges, s0, id, r);
    CcStepProgress(edges, cur, id);
    assert cur.Keys == s0.Keys;
    SubsetCard(Pending(CcStep(edges, cur), Labels(s0.Keys, id)), Pending(cur, Labels(s0.Keys, id)));
  }

  // ---------------------------------------------------------------- the fixpoint

  /** Under agreement, linked nodes carry the same label. */
  lemma {:induction false} AgreePath<N, E>(edges: seq<Edge<N, E>>, s: map<N, Attrs>, a: N, p: seq<N>, b: N)
    requires Covers(s.Keys, edges) && AllReady(s) && Agree(edges, s)
    requires a in s && IsPath(edges, a, p, b)
    ensures b in s && CcOf(s[a]) == CcOf(s[b])
    decreases |p|
  {
    PathInside(edges, a, p, b, s.Keys);
    if |p| > 1 {
      var prev := p[|p| - 2];
      AgreePath(edges, s, a, p[..|p| - 1], prev);
      var j :| 0 <= j < |edges| && Joins(edges[j], prev, b);
    }
  }

  /**
    The labelling at a fixpoint reached from the initial state: two nodes share a label
    exactly when they are linked, and the label is the least initial label in the component.
   */
  lemma CcFixpoint<N, E>(edges: seq<Edge<N, E>>, s: map<N, Attrs>, id: N -> int)
    requires Covers(s.Keys, edges) && AllReady(s) && Injective(id, s.Keys)
    requires Rooted(edges, s, id) && Bounded(s, id) && Agree(edges, s)
    ensures forall a, b :: a in s && b in s ==> (CcOf(s[a]) == CcOf(s[b]) <==> Linked(edges, a, b))
    ensures forall a, m :: a in s && m in s && Linked(edges, m, a) ==> CcOf(s[a]) <= id(m)
    ensures forall a :: a in s && Isolated(edges, a) ==> CcOf(s[a]) == id(a)
  {
    forall a, b | a in s && b in s ensures CcOf(s[a]) == CcOf(s[b]) <==> Linked(edges, a, b) {
      if Linked(edges, a, b) {
        var p :| IsPath(edges, a, p, b);
        AgreePath(edges, s, a, p, b);
      }
      if CcOf(s[a]) == CcOf(s[b]) {
        assert RootedAt(edges, s, id, a) && RootedAt(edges, s, id, b);
        var ma :| ma in s && Linked(edges, ma, a) && CcOf(s[a]) == id(ma);
        var mb :| mb in s && Linked(edges, mb, b) && CcOf(s[b]) == id(mb);
        assert ma == mb;
        LinkedSym(edges, ma, a);
        LinkedTrans(edges, a, ma, b);
      }
    }
    forall a, m | a in s && m in s && Linked(edges, m, a) ensures CcOf(s[a]) <= id(m) {
      var p :| IsPath(edges, m, p, a);
      AgreePath(edges, s, m, p, a);
    }
    forall a | a in s && Isolated(edges, a) ensures CcOf(s[a]) == id(a) {
      assert RootedAt(edges, s, id, a);
      var m :| m in s && Linked(edges, m, a) && CcOf(s[a]) == id(m);
      LinkedSym(edges, m, a);
      LinkedIsolated(edges, a, m);
    }
  }

  /** Labels other than `cc` and `halt` survive any number of rounds. */
  lemma {:induction false} CcRunOtherKeys<N, E>(edges: seq<Edge<N, E>>, s0: map<N, Attrs>, k: nat, n: N)
    requires Covers(s0.Keys, edges) && AllReady(s0) && n in s0
    ensures SameOtherKeys(s0[n], CcRun(edges, s0, k)[n])
  {
    if k > 0 {
      var j: nat := k - 1;
      CcRunOtherKeys(edges, s0, j, n);
      CcRunOtherKeysStep(edges, s0, j, n);
    }
  }

  lemma CcRunOtherKeysStep<N, E>(edges: seq<Edge<N, E>>, s0: map<N, Attrs>, j: nat, n: N)
    requires Covers(s0.Keys, edges) && AllReady(s0) && n in s0
    requires SameOtherKeys(s0[n], CcRun(edges, s0, j)[n])
    ensures SameOtherKeys(s0[n], CcRun(edges, s0, j + 1)[n])
  {
    var prev := CcRun(edges, s0, j);
    CcStepLowers(edges, prev, n);
    SameOtherKeysTrans(s0[n], prev[n], CcStep(edges, prev)[n]);
  }

  /**
    A run from a rooted and bounded state (such as the initial one) that ends, after at
    least one round, with every node halted, has labelled the components: labels agree
    across every edge, two nodes share a label exactly when they are linked, and each
    label is the least initial label of its holder's component.
   */
  lemma CcRunCorrect<N, E>(edges: seq<Edge<N, E>>, s0: map<N, Attrs>, id: N -> int, k: nat)
    requires Covers(s0.Keys, edges) && AllReady(s0) && Rooted(edges, s0, id) && Bounded(s0, id)
    requires Injective(id, s0.Keys) && k >= 1 && AllHalted(CcRun(edges, s0, k))
    ensures var r := CcRun(edges, s0, k);
      && Rooted(edges, r, id) && Agree(edges, r)
      && (forall a, b :: a in r && b in r ==> (CcOf(r[a]) == CcOf(r[b]) <==> Linked(edges, a, b)))
      && (forall a, m :: a in r && m in r && Linked(edges, m, a) ==> CcOf(r[a]) <= id(m))
      && (forall a :: a in r && Isolated(edges, a) ==> CcOf(r[a]) == id(a))
  {
    var r := CcRun(edges, s0, k);
    CcRunInvariant(edges, s0, id, k);
    CcRunHaltedAgree(edges, s0, k);
    CcFixpoint(edges, r, id);
  }

  // ---------------------------------------------------------------- general helpers

  /** A subset is no larger, and a proper subset is strictly smaller. */
  lemma SubsetCard<T>(a: set<T>, b: set<T>)
    requires a <= b
    ensures |a| <= |b| && (a < b ==> |a| < |b|)
  {
    assert b == a + (b - a);
    if a < b {
      var x :| x in b && x !in a;
      assert x in b - a;
    }
  }

  /** Keeping the other keys is transitive. */
  lemma SameOtherKeysTrans(a: Attrs, b: Attrs, c: Attrs)
    requires SameOtherKeys(a, b) && SameOtherKeys(b, c)
    ensures SameOtherKeys(a, c)
  {
  }

  // ---------------------------------------------------------------- the imperative algorithm

  /**
    The collector: `halt` is set, then every message below the current `cc` replaces it
    and clears `halt`.
   */
  method CcCollector(node: GraphLabel<Value>, msgs: seq<int>)
    requires HasCc(node.attrs)
    modifies node
    ensures node.attrs == CcCollected(old(node.attrs), msgs)
  {
    ghost var a := node.attrs;
    ghost var c := CcOf(a);
    node.Set("halt", BoolVal(true));
    assert a["cc" := IntVal(c)] == a;
    assert msgs[..0] == [];
    for i := 0 to |msgs|
      invariant node.attrs == a["cc" := IntVal(MinWith(c, msgs[..i]))]["halt" := BoolVal(MinWith(c, msgs[..i]) == c)]
    {
      assert msgs[..i + 1][..i] == msgs[..i];
      var cur := node.Get("cc");
      if msgs[i] < cur.value.i {
        node.Set("cc", IntVal(msgs[i]));
        node.Set("halt", BoolVal(false));
      }
    }
    assert msgs[..|msgs|] == msgs;
  }

  /** One `send_collect` round with the connected-components emitter and collector. */
  method CcSuperstep<E>(g: Graph<GraphLabel<Value>, E>)
    requires Covers(g.nodes, g.edges) && AllReady(Snapshot(g.nodes))
    modifies g.nodes
    ensures Snapshot(g.nodes) == CcStep(g.edges, old(Snapshot(g.nodes)))
  {
    ghost var pre: map<GraphLabel<Value>, Attrs> := Snapshot(g.nodes);
    CcCanEmit(g.edges, pre);
    var agg := SendPhase(g, CcEmit);
    CcCollectAll(g, pre, agg);
  }

  /** The collect phase: every node of the graph gets one collector call with its inbox. */
  method CcCollectAll<E>(g: Graph<GraphLabel<Value>, E>, ghost pre: map<GraphLabel<Value>, Attrs>, agg: map<GraphLabel<Value>, seq<int>>)
    requires Covers(g.nodes, g.edges) && AllReady(pre) && pre == Snapshot(g.nodes)
    requires CanEmit(g.edges, pre, CcEmit)
    requires forall n :: Received(agg, n) == Inbox(g.edges, pre, CcEmit, n)
    modifies g.nodes
    ensures Snapshot(g.nodes) == CcStep(g.edges, pre)
  {
    CcCollectEach(g.nodes, pre, agg);
    forall n | n in g.nodes ensures n.attrs == CcStep(g.edges, pre)[n] {
      CcStepAt(g.edges, pre, n);
    }
  }

  /** The `for node in self.nodes` loop: one collector call per node, with its aggregated list. */
  method CcCollectEach(nodes: set<GraphLabel<Value>>, ghost pre: map<GraphLabel<Value>, Attrs>, agg: map<GraphLabel<Value>, seq<int>>)
    requires forall n :: n in nodes ==> n in pre && n.attrs == pre[n] && HasCc(pre[n])
    modifies nodes
    ensures forall n :: n in nodes ==> n.attrs == CcCollected(pre[n], Received(agg, n))
  {
    var todo := nodes;
    while todo != {}
      invariant todo <= nodes
      invariant forall n :: n in nodes - todo ==> n.attrs == CcCollected(pre[n], Received(agg, n))
      invariant forall n :: n in todo ==> n.attrs == pre[n]
      decreases todo
    {
      var n :| n in todo;
      CcCollector(n, Received(agg, n));
      todo := todo - {n};
    }
  }

  /** The loop test: the number of nodes whose `halt` flag is clear. */
  method CountUnhalted<E>(g: Graph<GraphLabel<Value>, E>) returns (count: nat)
    requires AllReady(Snapshot(g.nodes))
    ensures count == |set n | n in g.nodes && !Halted(n.attrs)|
    ensures count == 0 <==> AllHalted(Snapshot(g.nodes))
  {
    count := 0;
    var todo := g.nodes;
    ghost var unhalted: set<GraphLabel<Value>> := {};
    while todo != {}
      invariant todo <= g.nodes
      invariant unhalted == set n | n in g.nodes - todo && !Halted(n.attrs)
      invariant count == |unhalted|
      decreases todo
    {
      var n :| n in todo;
      var h := n.Get("halt");
      if !h.value.b {
        unhalted := unhalted + {n};
        count := count + 1;
      }
      todo := todo - {n};
    }
    assert g.nodes - todo == g.nodes;
    if count == 0 {
      forall n | n in g.nodes ensures Halted(n.attrs) {
        assert n !in unhalted;
      }
    } else {
      ghost var n :| n in unhalted;
      assert !Halted(Snapshot(g.nodes)[n]);
    }
  }

  /** `g.update_nodes(init_node)`. */
  method CcInitialise<E>(g: Graph<GraphLabel<Value>, E>, id: GraphLabel<Value> -> int)
    modifies g.nodes
    ensures Snapshot(g.nodes) == CcInitial(id, old(Snapshot(g.nodes)))
  {
    MapNodes(g, (n, a) => CcInit(id, n, a));
  }

  /** One superstep followed by the loop test. */
  method CcRound<E>(g: Graph<GraphLabel<Value>, E>, ghost s0: map<GraphLabel<Value>, Attrs>, ghost k: nat) returns (count: nat)
    requires Covers(g.nodes, g.edges) && s0.Keys == g.nodes && AllReady(s0)
    requires Snapshot(g.nodes) == CcRun(g.edges, s0, k)
    modifies g.nodes
    ensures Snapshot(g.nodes) == CcRun(g.edges, s0, k + 1)
    ensures count == 0 <==> HaltsAt(g.edges, s0, k + 1)
  {
    CcSuperstep(g);
    count := CountUnhalted(g);
  }

  /**
    The superstep loop of `connected_comp`: one superstep, then more while some node is
    un-halted.  It ends after the first round that halts every node.
   */
  method CcPropagate<E>(g: Graph<GraphLabel<Value>, E>, ghost s0: map<GraphLabel<Value>, Attrs>, ghost id: GraphLabel<Value> -> int)
      returns (ghost rounds: nat)
    requires Covers(g.nodes, g.edges) && s0 == Snapshot(g.nodes)
    requires AllReady(s0) && Rooted(g.edges, s0, id) && Bounded(s0, id)
    modifies g.nodes
    ensures rounds >= 1 && Snapshot(g.nodes) == CcRun(g.edges, s0, rounds)
    ensures NoEarlyHalt(g.edges, s0, rounds) && AllHalted(CcRun(g.edges, s0, rounds))
  {
    var count := CcRound(g, s0, 0);
    rounds := 1;
    while count > 0
      invariant rounds >= 1
      invariant Snapshot(g.nodes) == CcRun(g.edges, s0, rounds)
      invariant NoEarlyHalt(g.edges, s0, rounds)
      invariant count == 0 <==> HaltsAt(g.edges, s0, rounds)
      decreases Measure(g.edges, s0, id, rounds), count
    {
      NoEarlyHaltExtend(g.edges, s0, rounds);
      CcLoopRound(g.edges, s0, id, rounds);
      count := CcRound(g, s0, rounds);
      rounds := rounds + 1;
    }
  }

  /**
    `connected_comp`: initialise every node, run one superstep, then repeat supersteps
    while some node is un-halted.  On exit every node is halted, two nodes share a label
    exactly when they are linked, and each label is the least initial label of its
    component.
   */
  method ConnectedComponents<E>(g: Graph<GraphLabel<Value>, E>, id: GraphLabel<Value> -> int) returns (ghost rounds: nat)
    requires g.Valid() && Injective(id, g.nodes)
    modifies g.nodes
    ensures Covers(g.nodes, g.edges) && rounds >= 1
    ensures Snapshot(g.nodes) == CcRun(g.edges, CcInitial(id, old(Snapshot(g.nodes))), rounds)
    ensures NoEarlyHalt(g.edges, CcInitial(id, old(Snapshot(g.nodes))), rounds)
    ensures AllReady(Snapshot(g.nodes)) && AllHalted(Snapshot(g.nodes))
    ensures forall a, b :: a in g.nodes && b in g.nodes ==> (CcOf(a.attrs) == CcOf(b.attrs) <==> Linked(g.edges, a, b))
    ensures Rooted(g.edges, Snapshot(g.nodes), id)
    ensures forall a, m :: a in g.nodes && m in g.nodes && Linked(g.edges, m, a) ==> CcOf(a.attrs) <= id(m)
    ensures forall i :: 0 <= i < |g.edges| ==> CcOf(g.edges[i].0.attrs) == CcOf(g.edges[i].1.attrs)
    ensures forall a :: a in g.nodes && Isolated(g.edges, a) ==> CcOf(a.attrs) == id(a)
    ensures forall a :: a in g.nodes ==> SameOtherKeys(old(a.attrs), a.attrs)
    ensures CcStep(g.edges, Snapshot(g.nodes)) == Snapshot(g.nodes)
  {
    ghost var s: map<GraphLabel<Value>, Attrs> := Snapshot(g.nodes);
    EndpointsCovered(g.nodes, g.edges);
    CcInitialise(g, id);
    ghost var s0: map<GraphLabel<Value>, Attrs> := Snapshot(g.nodes);
    CcInitialProps(g.edges, s, id);
    rounds := CcPropagate(g, s0, id);
    CcRunCorrect(g.edges, s0, id, rounds);
    forall a | a in g.nodes ensures SameOtherKeys(old(a.attrs), a.attrs) {
      CcRunOtherKeys(g.edges, s0, rounds, a);
      SameOtherKeysTrans(s[a], s0[a], CcRun(g.edges, s0, rounds)[a]);
    }
    CcStepFixed(g.edges, Snapshot(g.nodes));
  }
}
