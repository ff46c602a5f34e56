/**
 * The publish batch `main` builds from the graph: one `node_create` per
 * node, then one `edge_create` per edge, with weight 1.
 */
module Signals {
  import opened Wrappers
  import opened Graph

  datatype Signal =
    | NodeCreate(name: string, nodeType: string)
    | EdgeCreate(fromName: string, fromType: string, toName: string, toType: string,
                 name: string, weight: int)

  predicate Distinct<T(==)>(s: seq<T>)
  {
    forall i, j :: 0 <= i < j < |s| ==> s[i] != s[j]
  }

  /** `order` lists the members of `s`, each exactly once. */
  ghost predicate Enumerates<T(!new)>(order: seq<T>, s: set<T>)
  {
    Distinct(order) && forall x :: x in s <==> x in order
  }

  /** A listing without repetition is as long as the set it lists. */
  lemma {:induction false} EnumerationSize<T(!new)>(order: seq<T>, s: set<T>)
    requires Enumerates(order, s)
    ensures |order| == |s|
    decreases |order|
  {
    if order != [] {
      var rest := order[1..];
      assert Enumerates(rest, s - {order[0]}) by {
        forall x ensures x in s - {order[0]} <==> x in rest {
          if x in rest {
            var k :| 0 <= k < |rest| && rest[k] == x;
            assert order[k + 1] == x;
          }
          if x in order && x != order[0] {
            var k :| 0 <= k < |order| && order[k] == x;
            assert rest[k - 1] == x;
          }
        }
      }
      EnumerationSize(rest, s - {order[0]});
    }
  }

  /** Lists a set in some order, each member once: how a graph's nodes or edges are iterated. */
  method Listing<T(==, !new)>(s: set<T>) returns (order: seq<T>)
    ensures Enumerates(order, s)
  {
    order := [];
    var left := s;
    while left != {}
      invariant left <= s
      invariant Distinct(order)
      invariant forall x :: x in s <==> x in order || x in left
      invariant forall x :: x in order ==> x !in left
      decreases |left|
    {
      var x :| x in left;
      order := order + [x];
      left := left - {x};
    }
  }

  /**
   * The `node_create` comprehension over the nodes in `order`. Looking up
   * a missing `type` attribute raises `KeyError`: `None`.
   */
  function NodeSignals(order: seq<string>, nodeType: map<string, string>): (r: Option<seq<Signal>>)
    ensures r.Some? <==> forall i :: 0 <= i < |order| ==> order[i] in nodeType
    ensures r.Some? ==> |r.value| == |order|
    ensures r.Some? ==> forall i :: 0 <= i < |order| ==>
              r.value[i] == NodeCreate(order[i], nodeType[order[i]])
  {
    if order == [] then Some([])
    else if order[0] !in nodeType then None
    else match NodeSignals(order[1..], nodeType)
      case None => None
      case Some(rest) => Some([NodeCreate(order[0], nodeType[order[0]])] + rest)
  }

  /**
   * The `edge_create` comprehension over the edges in `order`: source and
   * target names with their node types, the edge type, weight 1.
   */
  function EdgeSignals(order: seq<Edge>, nodeType: map<string, string>, edgeType: map<Edge, string>)
    : (r: Option<seq<Signal>>)
    ensures r.Some? <==> forall i :: 0 <= i < |order| ==>
              order[i].0 in nodeType && order[i].1 in nodeType && order[i] in edgeType
    ensures r.Some? ==> |r.value| == |order|
    ensures r.Some? ==> forall i :: 0 <= i < |order| ==>
              && order[i].0 in nodeType && order[i].1 in nodeType && order[i] in edgeType
              && r.value[i] == EdgeCreate(order[i].0, nodeType[order[i].0], order[i].1,
                                          nodeType[order[i].1], edgeType[order[i]], 1)
  {
    if order == [] then Some([])
    else
      var (u, v) := order[0];
      if u !in nodeType || v !in nodeType || (u, v) !in edgeType then None
      else match EdgeSignals(order[1..], nodeType, edgeType)
        case None => None
        case Some(rest) =>
          Some([EdgeCreate(u, nodeType[u], v, nodeType[v], edgeType[(u, v)], 1)] + rest)
  }

  /** The whole batch: the node signals, extended by the edge signals. */
  function Batch(G: DiGraph, nodeOrder: seq<string>, edgeOrder: seq<Edge>): (r: Option<seq<Signal>>)
    ensures r.Some? <==>
              NodeSignals(nodeOrder, G.nodeType).Some? && EdgeSignals(edgeOrder, G.nodeType, G.edgeType).Some?
    ensures r.Some? ==> |r.value| == |nodeOrder| + |edgeOrder|
    ensures r.Some? ==> r.value[..|nodeOrder|] == NodeSignals(nodeOrder, G.nodeType).value
    ensures r.Some? ==> r.value[|nodeOrder|..] == EdgeSignals(edgeOrder, G.nodeType, G.edgeType).value
  {
    match NodeSignals(nodeOrder, G.nodeType)
    case None => None
    case Some(ns) =>
      match EdgeSignals(edgeOrder, G.nodeType, G.edgeType)
      case None => None
      case Some(es) => Some(ns + es)
  }

  /** An assembled graph, listed in any order, always yields a batch. */
  lemma BatchDefined(G: DiGraph, nodeOrder: seq<string>, edgeOrder: seq<Edge>)
    requires G.Valid() && G.Typed()
    requires Enumerates(nodeOrder, G.nodes) && Enumerates(edgeOrder, G.edges)
    ensures NodeSignals(nodeOrder, G.nodeType).Some?
    ensures EdgeSignals(edgeOrder, G.nodeType, G.edgeType).Some?
    ensures Batch(G, nodeOrder, edgeOrder).Some?
  {
    forall i | 0 <= i < |nodeOrder| ensures nodeOrder[i] in G.nodeType {
      assert nodeOrder[i] in G.nodes;
    }
    forall i | 0 <= i < |edgeOrder|
      ensures edgeOrder[i].0 in G.nodeType && edgeOrder[i].1 in G.nodeType && edgeOrder[i] in G.edgeType
    {
      assert edgeOrder[i] in G.edges;
    }
  }

  /**
   * The batch of an assembled graph: one `node_create` of type `PACKAGE`
   * per node, followed by one `edge_create` of type `DEPENDS` and weight 1
   * per edge.
   */
  lemma BatchLayout(G: DiGraph, nodeOrder: seq<string>, edgeOrder: seq<Edge>)
    requires G.Valid() && G.Typed()
    requires Enumerates(nodeOrder, G.nodes) && Enumerates(edgeOrder, G.edges)
    ensures Batch(G, nodeOrder, edgeOrder).Some?
    ensures |Batch(G, nodeOrder, edgeOrder).value| == |nodeOrder| + |edgeOrder|
    ensures forall i :: 0 <= i < |nodeOrder| ==>
              Batch(G, nodeOrder, edgeOrder).value[i] == NodeCreate(nodeOrder[i], PackageType)
    ensures forall i :: 0 <= i < |edgeOrder| ==>
              Batch(G, nodeOrder, edgeOrder).value[|nodeOrder| + i]
                == EdgeCreate(edgeOrder[i].0, PackageType, edgeOrder[i].1, PackageType, DependsType, 1)
  {
    BatchDefined(G, nodeOrder, edgeOrder);
  }

  /** Every edge signal names a source and a target declared by earlier `node_create` signals. */
  lemma EdgesFollowNodes(G: DiGraph, nodeOrder: seq<string>, edgeOrder: seq<Edge>, k: nat)
    requires G.Valid() && G.Typed()
    requires Enumerates(nodeOrder, G.nodes) && Enumerates(edgeOrder, G.edges)
    requires |nodeOrder| <= k < |nodeOrder| + |edgeOrder|
    ensures Batch(G, nodeOrder, edgeOrder).Some?
    ensures var r := Batch(G, nodeOrder, edgeOrder).value;
      && r[k].EdgeCreate?
      && (exists i :: 0 <= i < |nodeOrder| && r[i] == NodeCreate(r[k].fromName, PackageType))
      && (exists j :: 0 <= j < |nodeOrder| && r[j] == NodeCreate(r[k].toName, PackageType))
  {
    BatchLayout(G, nodeOrder, edgeOrder);
    var r := Batch(G, nodeOrder, edgeOrder).value;
    var e := edgeOrder[k - |nodeOrder|];
    assert r[k] == EdgeCreate(e.0, PackageType, e.1, PackageType, DependsType, 1);
    assert e in G.edges;
    var i :| 0 <= i < |nodeOrder| && nodeOrder[i] == e.0;
    var j :| 0 <= j < |nodeOrder| && nodeOrder[j] == e.1;
    assert r[i] == NodeCreate(r[k].fromName, PackageType);
    assert r[j] == NodeCreate(r[k].toName, PackageType);
  }

  /** A missing node type makes the batch fail, like the `KeyError` in the comprehension. */
  lemma UntypedNodeFails(G: DiGraph, nodeOrder: seq<string>, edgeOrder: seq<Edge>, n: string)
    requires n in nodeOrder && n !in G.nodeType
    ensures Batch(G, nodeOrder, edgeOrder) == None
  {
  }
}
