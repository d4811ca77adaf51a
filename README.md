# graph-module, modelled in Dafny

This is a Dafny model of the core of `graph-module`, a small Python toolkit for vertex-centric graph
computation. The model covers:

- The container, `Graph`: a node set plus an ordered table of `(src, dst, edge_obj)` rows, so
  parallel edges are kept. It is a class with `nodes: set<N>` and `edges: seq<(N, N, E)>`; the
  invariant `Valid()` says every edge endpoint is a node.
- Its operations: `add_nodes`, `add_edges`, `from_df`, `subgraph`, `project_a_copy`,
  `map_nodes` and `map_edges`.
- The older `GraphObj` label class.
- The `send_collect` superstep (module `Engine`). Each edge's emitter produces one message list for
  the source and one for the destination. The lists are concatenated per node in edge order. Then
  every node of the graph gets one collector call with what it received. The value-level
  specification is `Inbox` and `Superstep`, over the attribute maps every node has before the round.
  The imperative part is the aggregation loop (`Aggregate`, `Route`, `SendPhase`) and, per
  algorithm, the collect loop.
- `GraphLabel` (module `GraphLabels`): the name plus attribute map that nodes carry, with
  dict-style get and set, and the two wrapper constructors.
- `connected_comp` (module `ConnectedComp`): hash-min label propagation with a `halt` flag, repeated
  until every node halts. The module proves:
  - the loop terminates;
  - on exit, two nodes share a label exactly when an undirected path joins them (module
    `Connectivity`);
  - each label is the least initial label in its component.
- `out_degree` (module `OutDegree`): one superstep. It proves that each node's `out_degree` is the
  number of edges leaving it, and that the degrees sum to the number of edges.

`algorithms.py` repeats the code of `GraphLabel` (lines 3-82), `connected_comp` (lines 84-114) and
`out_degree` (lines 116-123): the statements are the same, while comments and docstrings differ in
places. The same members model both copies. The table cites the `graph/algorithms/` files, and each algorithm row also names the
matching `algorithms.py` lines.

Modelling decisions:

- Nodes are `GraphLabel<Value>` objects, as in the source, where a node object is its own label.
  `Value` holds the two kinds of attribute value the algorithms write: integers (`cc`,
  `out_degree`) and booleans (`halt`).
- Connected-component labels are integers `id(n)` from an injective function. The source sets
  `node.name + " id:" + str(id(node))` (`graph/algorithms/connected_comp.py:17`). These strings are
  distinct because object identities are, and the algorithm only ever compares them with each other
  (`<`). So an injective integer labelling with the strings' order behaves the same. "Least label"
  in the contracts means least under that order.
- Python's `str` of a node or edge object is a function parameter of the wrapper constructors.
- Emitters, collectors and mutators are Dafny functions on attribute maps. An emitter is given the
  attribute maps of both endpoints as they were before the round. In the source, every emitter call
  happens while the aggregation loop drains the generator (`graph.py:161-172`), before the first
  collector call (`graph.py:173-174`). Both emitters in the library return lists
  (`graph/algorithms/connected_comp.py:23`, `graph/algorithms/out_degree.py:13`), so their messages
  are computed from the pre-round state. The lazy-iterator case is under "Left out".
- Dafny cannot pass a method as a value. So the collect loop of `send_collect` is written out once
  per algorithm (`CcCollectAll`, `OutCollectAll`). Each is proved against `Superstep`.

Places where the code and its own naming or docstrings disagree; the model follows the code's evident intent:

- The algorithm files call `g.update_nodes`, `g.nodes()` and `g.new_subgraph`. `graph.py` defines
  `map_nodes` (`graph.py:176-178`), a plain `nodes` set (`graph.py:19`) and `subgraph`. The model
  treats these as the same operations.
- `Graph.__init__` never creates `self.edges` (`graph.py:16-23`). The model starts with no edges.
- `add_edges` builds its rows from `e.edge_obj`, where `e` is unbound (`graph.py:63`). It then reads
  `e.src`/`e.dst` from triples (`graph.py:65`). The model appends the triples and adds both
  endpoints of each.
- `edge_wrapper`'s docstring offers it as an edge map taking `(src, dst, edge_obj)`.
  `project_a_copy` calls `edge_map` with the edge object alone (`graph.py:190`). The model follows
  the code: `edge_map` is a function of the edge object.

## Model

| member | source | states |
|---|---|---|
| `GraphLabels.Lookup` | graph/algorithms/graph_label.py:31-32 | reading a key fails with `KeyError(key)` exactly when the key was never set, otherwise gives the stored value; there is no default |
| `GraphLabels.LookupAfterStore` | graph/algorithms/graph_label.py:31-35 | after storing `v` under `k`, reading `k` gives `v` and reading any other key gives what it gave before |
| `GraphLabels.GraphLabel.constructor` | graph/algorithms/graph_label.py:24-26 | the label has the given name and attributes; `name` is a `const` set here, so there is no setter, as the read-only property at graph/algorithms/graph_label.py:77-80 promises |
| `GraphLabels.GraphLabel.Get` | graph/algorithms/graph_label.py:31-32 | `n[key]` fails exactly when `key` is absent and otherwise returns the stored value (also algorithms.py:33-34) |
| `GraphLabels.GraphLabel.Set` | graph/algorithms/graph_label.py:34-35 | `n[key] = value` stores the value; afterwards `n[key]` returns it and every other key reads as before (also algorithms.py:36-37) |
| `GraphLabels.NodeWrapper` | graph/algorithms/graph_label.py:37-52 | a fresh label named `str(node)` whose only attribute is `data = node` (also algorithms.py:39-54) |
| `GraphLabels.EdgeWrapper` | graph/algorithms/graph_label.py:54-75 | a fresh label named `str(edge_obj)` with `data = edge_obj`; `src` and `dst` do not enter the result (also algorithms.py:56-77) |
| `GraphLabels.TakeSnapshot` | graph.py:161-172 | reads every label's attributes; the result is the heap snapshot the emitters are given |
| `Graphs.Graph.constructor` | graph.py:16-23 | a new graph holds exactly the given edges, in order, and the given nodes plus every edge endpoint |
| `Graphs.Graph.AddNodes` | graph.py:42-52 | the node set becomes the union of the old set and the argument, edges unchanged; the argument is then contained in the node set, so repeating the call changes nothing |
| `Graphs.Graph.AddEdges` | graph.py:54-65 | the new triples are appended in order after the existing edges, and the node set grows by exactly their endpoints; the invariant is kept |
| `Graphs.Graph.FromDf` | graph.py:25-31 | the edge table is taken as is and the node set becomes exactly the set of all sources and destinations |
| `Graphs.KeptEdges` | graph.py:88-92 | the rows selected by the mask, kept in their original order, never more than the table has |
| `Graphs.KeptEdgesMembers` | graph.py:88-92 | an edge is kept exactly when it is in the table, passes `edge_pred` and has both endpoints passing `node_pred` |
| `Graphs.KeptEdgesAll` | graph.py:83-86 | with no predicates every edge is kept, in order |
| `Graphs.KeptEdgesEndpoints` | graph.py:88-93 | the endpoints of kept edges are endpoints of the graph and pass `node_pred` |
| `Graphs.SubgraphNodesExact` | graph.py:93-94 | on a valid graph, `from_df` plus `add_nodes` gives exactly the nodes passing `node_pred`, isolated ones included |
| `Graphs.Graph.Subgraph` | graph.py:67-95 | a fresh valid graph whose edges are the kept edges in original order and whose nodes are exactly the nodes passing `node_pred` |
| `Graphs.SubgraphEdgesAsWritten` | graph.py:85-88 | the mask as written: it raises `TypeError` when the default edge predicate meets a non-empty table, and otherwise gives the kept edges |
| `Graphs.SubgraphAsWrittenRaises` | graph.py:85-88 | a one-edge graph with no predicates raises, where every edge should be kept |
| `Graphs.KeptEdgesCount` | graph.py:88-92 | counted with multiplicity, a triple passing the mask is kept as often as it occurs (parallel rows sharing one edge object stay separate rows), and one failing the mask not at all |
| `Graphs.ProjectEdges` | graph.py:188-190 | the projected edge table, row for row; what it means for the new graph is carried by `Graphs.ProjectEndpoints` (its endpoints are the image of the old ones) and `Graphs.Graph.ProjectACopy` (the loop through the cache builds exactly this table) |
| `Graphs.ProjectEndpoints` | graph.py:188-192 | the endpoints of the projected edges are the images of the old endpoints |
| `Graphs.ProcessNodes` | graph.py:185-187 | maps every node, and only the nodes, to `node_map(node)`; its values are the image of the node set; `node_map` is applied once per node |
| `Graphs.Graph.ProjectACopy` | graph.py:184-193 | for a pure `node_map`: a fresh valid graph with the projected edges and node set equal to the image of `node_map`; `node_map` is applied exactly once per node |
| `Graphs.Graph.ProjectWrapped` | graph.py:184-193 | with `GraphLabel.node_wrapper` as `node_map` (graph/algorithms/graph_label.py:37-52): every node gets exactly one fresh label named `str(node)` holding the node, no two nodes share a label, the new node set is exactly those labels, and every edge is re-pointed through the cache, so all edges at a node share its one label |
| `Graphs.MapNodes` | graph.py:176-178 | every node's attributes become the mutator's result on that node's old attributes |
| `Graphs.Replay` | graph.py:180-182 | what one edge object ends with after the mutator has run over the edges in order: its starting attributes, or the mutator's result at one of the edges it labels, applied to what the earlier edges left |
| `Graphs.ReplayUntouched` | graph.py:180-182 | an edge object that labels no edge is not changed by `map_edges` |
| `Graphs.MapEdges` | graph.py:180-182 | every edge object ends as the mutator applied once per edge labelled by it, in edge order, starting from its old attributes |
| `Graphs.GraphObj.constructor` | graph.py:240-242 | the object has the given name and attributes |
| `Graphs.GraphObj.Get` | graph.py:247-248 | fails exactly when the key is absent, otherwise returns the stored value |
| `Graphs.GraphObj.Set` | graph.py:250-251 | stores the value; the key then reads it back, other keys and the name are unchanged |
| `Engine.Emitted` | graph.py:161-163 | two addressed entries per edge, source first, in edge order |
| `Engine.MessagesFor` | graph.py:169-172 | the chained `agg_msgs[node]`: every message in it was addressed to that node by some entry of the addressed stream |
| `Engine.MessagesForNone` | graph.py:174 | a node no entry is addressed to receives the empty sequence |
| `Engine.RoutedIsInbox` | graph.py:161-172 | the per-node concatenation of the addressed messages is, edge by edge, the source part and then the destination part (a self-loop gives its source part first) |
| `Engine.InboxIsolated` | graph.py:169-174 | a node with no incident edge is given an empty list |
| `Engine.InboxFromEdge` | graph.py:161-172 | every message an edge emits towards an endpoint is delivered to it |
| `Engine.InboxOrigin` | graph.py:161-172 | every message a node receives came from an incident edge, for that endpoint |
| `Engine.Aggregate` | graph.py:169-172 | `agg_msgs` has an entry exactly for the addressed nodes, each the concatenation of its messages in order |
| `Engine.Route` | graph.py:161-172 | for every node, the aggregated list (empty when absent) equals its per-edge inbox |
| `Engine.SendPhase` | graph.py:161-172 | the aggregated lists are computed from the node state before the round |
| `Engine.Superstep` | graph.py:173-174 | exactly the nodes of the graph get a collector result; no node outside the graph gets one |
| `Engine.InboxOutside` | graph.py:161-174 | a node with no pre-round state receives nothing: every emitter call needs both endpoints' states, which `Valid()` provides for every edge, so no message is addressed outside the node set and none is dropped |
| `ConnectedComp.CcInit` | graph/algorithms/connected_comp.py:16-18 | `cc` becomes the node's own label and `halt` is set; no other attribute changes (also algorithms.py:97-99) |
| `ConnectedComp.CcInitial` | graph/algorithms/connected_comp.py:16-19 | initialising every node leaves every node ready and halted (also algorithms.py:97-100) |
| `ConnectedComp.CcInitialProps` | graph/algorithms/connected_comp.py:16-19 | after initialisation every node's `cc` is its own label and `halt` is set (also algorithms.py:97-100) |
| `ConnectedComp.CcEmit` | graph/algorithms/connected_comp.py:22-23 | each endpoint is sent exactly one message, the other endpoint's pre-round `cc`; what each node then receives over all its edges is `ConnectedComp.CcInbox` (also algorithms.py:102-103) |
| `ConnectedComp.MinWith` | graph/algorithms/connected_comp.py:28-30 | the collector's running minimum is at most the old `cc` and every message, and is one of them (also algorithms.py:107-109) |
| `ConnectedComp.CcCollected` | graph/algorithms/connected_comp.py:26-31 | new `cc` = min(old `cc`, messages); `halt` is set exactly when no message was below the old `cc`, exactly when `cc` is unchanged; other attributes untouched (also algorithms.py:105-110) |
| `ConnectedComp.CcCanEmit` | graph/algorithms/connected_comp.py:22-23 | on a ready state every emitter and collector call is defined (also algorithms.py:102-103) |
| `ConnectedComp.CcStep` | graph/algorithms/connected_comp.py:33 | a superstep keeps the node set and leaves every node ready (also algorithms.py:112) |
| `ConnectedComp.CcStepAt` | graph/algorithms/connected_comp.py:26-33 | a node's new state is the collector's result on its old state and inbox (also algorithms.py:105-112) |
| `ConnectedComp.CcInbox` | graph/algorithms/connected_comp.py:22-23 | a node receives a value exactly when it is the pre-round `cc` of the other end of one of its edges, either direction (also algorithms.py:102-103) |
| `ConnectedComp.CcStepLowers` | graph/algorithms/connected_comp.py:26-31 | a round never raises `cc`, sets `halt` exactly when `cc` did not change, and leaves other attributes alone (also algorithms.py:105-110) |
| `ConnectedComp.CcStepNeighbours` | graph/algorithms/connected_comp.py:22-31 | after a round each endpoint's `cc` is at most the other endpoint's previous `cc` (also algorithms.py:102-110) |
| `ConnectedComp.CcStepSource` | graph/algorithms/connected_comp.py:22-31 | a new `cc` is the old one or a neighbour's previous `cc` (also algorithms.py:102-110) |
| `ConnectedComp.CcStepRooted` | graph/algorithms/connected_comp.py:22-33 | every `cc` is always the initial label of a node linked to its holder (also algorithms.py:102-112) |
| `ConnectedComp.CcStepBounded` | graph/algorithms/connected_comp.py:29-30 | a node's `cc` never exceeds its own initial label (also algorithms.py:108-109) |
| `ConnectedComp.CcStepHaltedAgree` | graph/algorithms/connected_comp.py:22-35 | a round that halts every node leaves the endpoints of every edge with equal `cc` (also algorithms.py:102-114) |
| `ConnectedComp.CcStepFixed` | graph/algorithms/connected_comp.py:26-35 | once labels agree across every edge and every node is halted, one more superstep leaves the whole state unchanged, so the loop's state is a fixpoint (also algorithms.py:105-114) |
| `ConnectedComp.RootedLabels` | graph/algorithms/connected_comp.py:29-30 | `cc` values are always drawn from the finite set of initial labels (also algorithms.py:108-109) |
| `ConnectedComp.CcStepProgress` | graph/algorithms/connected_comp.py:29-35 | the set of pending (node, lower initial label) pairs never grows, and shrinks in a round that leaves a node un-halted (also algorithms.py:108-114) |
| `ConnectedComp.CcRun` | graph/algorithms/connected_comp.py:33-35 | `k` supersteps keep the node set and readiness (also algorithms.py:112-114) |
| `ConnectedComp.CcRunInvariant` | graph/algorithms/connected_comp.py:29-35 | across any number of rounds labels stay rooted in the component and bounded by the holder's own label (also algorithms.py:108-114) |
| `ConnectedComp.CcRunHaltedAgree` | graph/algorithms/connected_comp.py:33-35 | once a round halts every node, `cc` agrees across every edge (also algorithms.py:112-114) |
| `ConnectedComp.NoEarlyHaltExtend` | graph/algorithms/connected_comp.py:34-35 | the loop passes a round only when that round left a node un-halted (also algorithms.py:113-114) |
| `ConnectedComp.CcLoopRound` | graph/algorithms/connected_comp.py:34-35 | the termination measure never grows and drops in every round that does not halt every node (also algorithms.py:113-114) |
| `ConnectedComp.AgreePath` | graph/algorithms/connected_comp.py:4-6 | when labels agree across every edge, the two ends of any path share a label (also algorithms.py:87-89) |
| `ConnectedComp.CcFixpoint` | graph/algorithms/connected_comp.py:4-6 | at the fixpoint two nodes share `cc` exactly when linked, each `cc` is the least initial label of the component, isolated nodes keep their own (also algorithms.py:87-89) |
| `ConnectedComp.CcRunOtherKeys` | graph/algorithms/connected_comp.py:26-31 | attributes other than `cc` and `halt` survive every round (also algorithms.py:105-110) |
| `ConnectedComp.CcRunCorrect` | graph/algorithms/connected_comp.py:16-35 | a run that halts after at least one round has labelled exactly the connected components (also algorithms.py:97-114) |
| `ConnectedComp.CcCollector` | graph/algorithms/connected_comp.py:26-31 | the collector loop leaves the node's attributes equal to `CcCollected` of the old ones and its messages (also algorithms.py:105-110) |
| `ConnectedComp.CcSuperstep` | graph/algorithms/connected_comp.py:33 | one `send_collect` call moves the node state to `CcStep` of the old state (also algorithms.py:112) |
| `ConnectedComp.CcCollectAll` | graph.py:173-174 | after the collect loop the node state is the superstep of the pre-round state |
| `ConnectedComp.CcCollectEach` | graph.py:173-174 | the collect loop calls the collector once on every node with its aggregated list (`agg_msgs.get(node, [])`), so each node ends as `CcCollected` of its old attributes and that list |
| `ConnectedComp.CountUnhalted` | graph/algorithms/connected_comp.py:34 | the count is the number of un-halted nodes; it is 0 exactly when every node is halted (also algorithms.py:113) |
| `ConnectedComp.CcInitialise` | graph/algorithms/connected_comp.py:16-19 | the node state becomes `CcInitial` of the old state (also algorithms.py:97-100) |
| `ConnectedComp.CcRound` | graph/algorithms/connected_comp.py:33-34 | one more round of the run, and a count that is 0 exactly when that round halted every node (also algorithms.py:112-113) |
| `ConnectedComp.CcPropagate` | graph/algorithms/connected_comp.py:33-35 | at least one round runs, the loop stops at the first round that halts every node, and it always terminates (also algorithms.py:112-114) |
| `ConnectedComp.ConnectedComponents` | graph/algorithms/connected_comp.py:1-35 | on exit every node is halted, `cc` agrees across every edge, two nodes share `cc` exactly when linked, each `cc` is the least initial label of its component, isolated nodes keep their own, other attributes are unchanged, and one more superstep would change nothing (also algorithms.py:84-114) |
| `OutDegree.OutCollected` | graph/algorithms/out_degree.py:16-17 | the collector adds `out_degree` and changes no other attribute (also algorithms.py:120-121) |
| `OutDegree.OutEmit` | graph/algorithms/out_degree.py:12-13 | each edge sends exactly one message, `1`, to its source and nothing to its destination; what each node then receives is `OutDegree.OutInbox` (also algorithms.py:117-118) |
| `OutDegree.OutCanEmit` | graph/algorithms/out_degree.py:12-13 | every emitter and collector call of the round is defined (also algorithms.py:117-118) |
| `OutDegree.OutStep` | graph/algorithms/out_degree.py:19 | the superstep keeps the node set (also algorithms.py:123) |
| `OutDegree.OutInbox` | graph/algorithms/out_degree.py:12-13 | a node receives one `1` per edge it is the source of, parallel edges counted apart, and nothing for edges ending at it (also algorithms.py:117-118) |
| `OutDegree.OutStepAt` | graph/algorithms/out_degree.py:12-17 | after the round each node's `out_degree` is the number of edges whose source it is; nothing else changes (also algorithms.py:117-121) |
| `OutDegree.OutStepNoOutEdges` | graph/algorithms/out_degree.py:16-17 | a node without outgoing edges gets `out_degree` 0 (also algorithms.py:120-121) |
| `OutDegree.OutStepOtherEdge` | graph/algorithms/out_degree.py:13 | adding an edge that does not start at `n`, even one that ends at `n`, leaves `n`'s result unchanged (also algorithms.py:118) |
| `OutDegree.DegreeSumEdges` | graph/algorithms/out_degree.py:12-19 | the out-degrees of any duplicate-free list of nodes add up to the number of edges leaving them (also algorithms.py:117-123) |
| `OutDegree.OutStepSum` | graph/algorithms/out_degree.py:12-19 | summed over the whole node set, the out-degrees equal the number of edges (also algorithms.py:117-123) |
| `OutDegree.OutCollector` | graph/algorithms/out_degree.py:16-17 | the collector stores the number of messages under `out_degree` (also algorithms.py:120-121) |
| `OutDegree.OutCollectAll` | graph/algorithms/out_degree.py:19 | after the collect loop the node state is the out-degree superstep of the pre-round state (also algorithms.py:123) |
| `OutDegree.OutCollectEach` | graph.py:173-174 | the collect loop calls the collector once on every node with its aggregated list, so each node ends as `OutCollected` of its old attributes and that list |
| `OutDegree.OutDegree` | graph/algorithms/out_degree.py:1-19 | exactly one superstep: each node's `out_degree` becomes the number of edges leaving it, and no other attribute changes (also algorithms.py:116-123) |

## Left out

- `page_rank` (`algorithms/page_rank.py`, `algorithms.py:126-194`): floating-point iteration whose
  convergence test cannot be reasoned about exactly.
- `Graph.find` (`graph.py:202-229`): its meaning rests on regular-expression matching and a pandas
  join.
- `Graph.save` / `Graph.load` (`graph.py:198-200`, `231-237`): file I/O through pickle.
- `Graph.__getitem__` (`graph.py:33-40`): a stub that always returns `True`.
- The `__repr__` methods: string rendering only.
- The pandas DataFrame holding the edges: a `seq` of triples whose order is the row order.
- `searchindex.js`: a documentation search index with no logic.
- Object identity in the initial component labels: replaced by an injective integer labelling, as
  explained above.
- The order in which a Python `set` is iterated: the model picks nodes in an arbitrary order, so
  every order is covered.
- Mutators given to `map_nodes` and `map_edges`: modelled as functions computing the new attribute
  map of the object they are applied to. Arbitrary Python side effects are not modelled: neither a
  mutator writing into other objects, nor a mutator reading other objects. The edge mutator is given
  the endpoint objects but not their attributes, so `init_edge` in `algorithms.py:164-165`, which
  reads `src['out_degree']`, is not expressible.
- Lazy emitters: the documented emitter interface returns iterators (`graph.py:106`, `122-131`).
  `agg_msgs` stores them unconsumed (`graph.py:169-172`), and the collector calls drain them
  (`graph.py:173-174`). An emitter that returns a generator reading node state therefore sees state
  that earlier collectors may already have changed. The model covers emitters that return lists,
  which both library algorithms do. Their messages are fixed when the emitter is called.
- Attribute values other than integers and booleans in the algorithms' labels: `Value` holds only
  the kinds that `connected_comp` and `out_degree` write. `GraphLabel` itself is generic.
- Edge endpoints outside the node set: the algorithm methods require `Valid()`. Every constructor
  and mutator of the model keeps it.
- `Graphs.Graph.ProjectACopy`: `node_map` and `edge_map` are pure Dafny functions. So for this member
  re-pointing through the `processed_node_objs` cache is the same as applying `node_map` directly,
  and the once-per-node record `calls` is bookkeeping. An allocating `node_map` is covered only for
  `GraphLabel.node_wrapper`, by `Graphs.Graph.ProjectWrapped`. `edge_map` stays pure in both
  members. `Series.apply` calls it once per row (`graph.py:190`), so an allocating `edge_map` would
  give two rows that share an edge object two distinct new objects; the model gives them one.
- `OutDegree.OutStepSum`: the sum is taken over a duplicate-free list that lists the node set, not
  over the set directly.

## Findings

| source | as written | input that shows it | evidently intended | confidence | as-written member | corrected member |
|---|---|---|---|---|---|---|
| graph.py:85-88 | when no edge predicate is given, the default is the one-argument `lambda x: True`, but the mask calls it with three arguments | `subgraph()` with no predicates on a graph with one edge raises `TypeError` | keep every edge whose endpoints pass `node_pred`, as the docstring says | not executed | `Graphs.SubgraphAsWrittenRaises` | `Graphs.Graph.Subgraph` |
