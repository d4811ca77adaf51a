/**
  The dict-like label attached to graph nodes and edges: a fixed name plus a
  mutable key/value attribute map.  The graph algorithms store their results
  (`cc`, `halt`, `out_degree`) in these attributes.
 */
module GraphLabels {
  import opened Wrappers

  /** Reading a key that was never set raises `KeyError(key)`. */
  datatype KeyError = KeyError(key: string)

  /** The attribute values the algorithms of this model write. */
  datatype Value = IntVal(i: int) | BoolVal(b: bool)

  type Attrs = map<string, Value>

  /** `attrs[key]` on a Python dict: the stored value, or a `KeyError` (never a default). */
  function Lookup<V>(attrs: map<string, V>, key: string): (r: Result<V, KeyError>)
    ensures r.Fail? <==> key !in attrs
    ensures r.Fail? ==> r.error == KeyError(key)
    ensures r.Ok? ==> r.value == attrs[key]
  {
    if key in attrs then Ok(attrs[key]) else Fail(KeyError(key))
  }

  /** After storing `v` under `k`, reading `k` gives `v` and every other key reads as before. */
  lemma LookupAfterStore<V>(attrs: map<string, V>, k: string, v: V, j: string)
    ensures Lookup(attrs[k := v], j) == if j == k then Ok(v) else Lookup(attrs, j)
  {
  }

  class GraphLabel<V> {
    /** Fixed at construction; the Python class exposes it through a read-only `name` property, with no setter. */
    const name: string
    var attrs: map<string, V>

    constructor (name: string, attrs: map<string, V>)
      ensures this.name == name && this.attrs == attrs
    {
      this.name := name;
      this.attrs := attrs;
    }

    /** `n[key]` */
    function Get(key: string): (r: Result<V, KeyError>)
      reads this
      ensures r.Fail? <==> key !in attrs
      ensures r.Ok? ==> r.value == attrs[key]
    {
      Lookup(attrs, key)
    }

    /** `n[key] = value` */
    method Set(key: string, value: V)
      modifies this
      ensures attrs == old(attrs)[key := value]
      ensures Get(key) == Ok(value)
      ensures forall k :: k != key ==> Get(k) == old(Get(k))
    {
      attrs := attrs[key := value];
    }
  }

  /**
    `GraphLabel.node_wrapper(node)`: a fresh label named `str(node)` holding the node
    under `data`.  Python's `str` is the parameter `str`.
   */
  method NodeWrapper<V>(node: V, str: V -> string) returns (l: GraphLabel<V>)
    ensures fresh(l)
    ensures l.name == str(node) && l.attrs == map["data" := node]
  {
    l := new GraphLabel(str(node), map["data" := node]);
  }

  /**
    `GraphLabel.edge_wrapper(src, dst, edge_obj)`: the endpoints are ignored; the fresh
    label is named `str(edge_obj)` and holds the edge object under `data`.
   */
  method EdgeWrapper<N, V>(src: N, dst: N, edgeObj: V, str: V -> string) returns (l: GraphLabel<V>)
    ensures fresh(l)
    ensures l.name == str(edgeObj) && l.attrs == map["data" := edgeObj]
  {
    l := new GraphLabel(str(edgeObj), map["data" := edgeObj]);
  }

  /** The attribute maps of a set of labels, as they stand in the current heap. */
  ghost function Snapshot<V>(ls: set<GraphLabel<V>>): (s: map<GraphLabel<V>, map<string, V>>)
    reads ls
    ensures s.Keys == ls
  {
    map l | l in ls :: l.attrs
  }

  /** Reads every label's attributes into a map, one label at a time. */
  method TakeSnapshot<V>(ls: set<GraphLabel<V>>) returns (s: map<GraphLabel<V>, map<string, V>>)
    ensures s == Snapshot(ls)
  {
    s := map[];
    var todo := ls;
    while todo != {}
      invariant todo <= ls
      invariant s.Keys == ls - todo
      invariant forall l :: l in s ==> s[l] == l.attrs
      decreases todo
    {
      var l :| l in todo;
      s := s[l := l.attrs];
      todo := todo - {l};
    }
  }
}
