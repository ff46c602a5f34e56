/**
 * The directed graph the script assembles from the resolved map: package
 * nodes typed "PACKAGE", dependency edges typed "DEPENDS".
 */
module Graph {

  const PackageType: string := "PACKAGE"
  const DependsType: string := "DEPENDS"

  type Edge = (string, string)

  /** Every dependency name listed by a package of `keys`. */
  function Mentioned(m: map<string, seq<string>>, keys: set<string>): set<string>
  {
    set p, d | p in keys && p in m && d in m[p] :: d
  }

  /** One edge per listed dependency of a package of `keys`. */
  function DependsEdges(m: map<string, seq<string>>, keys: set<string>): set<Edge>
  {
    set p, d | p in keys && p in m && d in m[p] :: (p, d)
  }

  /** The names in a list. */
  function Names(ds: seq<string>): set<string>
  {
    set d | d in ds
  }

  /** The edges from `p` to the names in a list. */
  function EdgesFrom(p: string, ds: seq<string>): set<Edge>
  {
    set d | d in ds :: (p, d)
  }

  /**
   * A networkx DiGraph: a node set with the `type` attribute of each node,
   * and an edge set with the `type` attribute of each edge. A graph has no
   * parallel edges, so adding an edge twice leaves one edge.
   */
  datatype DiGraph = DiGraph(
    nodes: set<string>,
    nodeType: map<string, string>,
    edges: set<Edge>,
    edgeType: map<Edge, string>)
  {
    /** Both endpoints of every edge are nodes; attributes belong to existing nodes and edges. */
    ghost predicate Valid()
    {
      && (forall e :: e in edges ==> e.0 in nodes && e.1 in nodes)
      && nodeType.Keys <= nodes
      && edgeType.Keys <= edges
    }

    /** Every node is typed `PACKAGE` and every edge `DEPENDS`. */
    ghost predicate Typed()
    {
      && (forall n :: n in nodes ==> n in nodeType && nodeType[n] == PackageType)
      && (forall e :: e in edges ==> e in edgeType && edgeType[e] == DependsType)
    }

    /** `add_node(n, type=t)`: adds `n` if it is new, and (re)sets its type. */
    function AddNode(n: string, t: string): (g: DiGraph)
      ensures Valid() ==> g.Valid()
      ensures Typed() && t == PackageType ==> g.Typed()
      ensures n in g.nodes && n in g.nodeType && g.nodeType[n] == t
      ensures g.nodes - {n} == nodes - {n} && g.nodeType == nodeType[n := t]
      ensures g.edges == edges && g.edgeType == edgeType
    {
      this.(nodes := nodes + {n}, nodeType := nodeType[n := t])
    }

    /**
     * `add_edge(u, v, type=t)`: adds either endpoint that is missing (with
     * no attributes), adds the edge if it is new, and (re)sets its type.
     */
    function AddEdge(u: string, v: string, t: string): (g: DiGraph)
      ensures Valid() ==> g.Valid()
      ensures Typed() && t == DependsType && u in nodes && v in nodes ==> g.Typed()
      ensures (u, v) in g.edges && (u, v) in g.edgeType && g.edgeType[(u, v)] == t
      ensures g.nodes == nodes + {u, v} && g.nodeType == nodeType
      ensures g.edges - {(u, v)} == edges - {(u, v)} && g.edgeType == edgeType[(u, v) := t]
    {
      this.(nodes := nodes + {u, v}, edges := edges + {(u, v)}, edgeType := edgeType[(u, v) := t])
    }
  }

  /** `nx.DiGraph()`: no nodes, no edges, no attributes. */
  function EmptyGraph(): (g: DiGraph)
    ensures g.Valid() && g.Typed()
    ensures |g.nodes| == 0 && |g.edges| == 0 && |g.nodeType| == 0 && |g.edgeType| == 0
  {
    DiGraph({}, map[], {}, map[])
  }

  /** Adding a node or an edge that is already there with the same type changes nothing. */
  lemma AddIdempotent(g: DiGraph, n: string, u: string, v: string, t: string)
    ensures g.AddNode(n, t).AddNode(n, t) == g.AddNode(n, t)
    ensures g.AddEdge(u, v, t).AddEdge(u, v, t) == g.AddEdge(u, v, t)
  {
  }

  /**
   * A typed graph is determined by its node and edge sets, so the order in
   * which the assembly loop visits the packages cannot change its result.
   */
  lemma AssembledUnique(g1: DiGraph, g2: DiGraph)
    requires g1.Valid() && g1.Typed() && g2.Valid() && g2.Typed()
    requires g1.nodes == g2.nodes && g1.edges == g2.edges
    ensures g1 == g2
  {
  }

  lemma MentionedStep(m: map<string, seq<string>>, keys: set<string>, p: string)
    requires p in m
    ensures Mentioned(m, keys + {p}) == Mentioned(m, keys) + Names(m[p])
    ensures DependsEdges(m, keys + {p}) == DependsEdges(m, keys) + EdgesFrom(p, m[p])
  {
  }

  lemma ListStep(p: string, ds: seq<string>, j: nat)
    requires j < |ds|
    ensures Names(ds[..j + 1]) == Names(ds[..j]) + {ds[j]}
    ensures EdgesFrom(p, ds[..j + 1]) == EdgesFrom(p, ds[..j]) + {(p, ds[j])}
  {
  }

  /**
   * The body of the assembly loop for one package: a node for `p`, then
   * for each of its dependencies a node and an edge from `p` to it.
   */
  method AddPackage(G0: DiGraph, p: string, dependencies: seq<string>) returns (G: DiGraph)
    requires G0.Valid() && G0.Typed()
    ensures G.Valid() && G.Typed()
    ensures G.nodes == G0.nodes + {p} + Names(dependencies)
    ensures G.edges == G0.edges + EdgesFrom(p, dependencies)
  {
    G := G0.AddNode(p, PackageType);
    for j := 0 to |dependencies|
      invariant G.Valid() && G.Typed()
      invariant G.nodes == G0.nodes + {p} + Names(dependencies[..j])
      invariant G.edges == G0.edges + EdgesFrom(p, dependencies[..j])
    {
      ListStep(p, dependencies, j);
      G := G.AddNode(dependencies[j], PackageType);
      G := G.AddEdge(p, dependencies[j], DependsType);
    }
    assert dependencies[..|dependencies|] == dependencies;
  }

  /**
   * The assembly loop of `generate_grid_edgelist` over the resolved map.
   * Dict iteration order is not modelled: the packages are taken in an
   * arbitrary order, which the result does not depend on.
   */
  method BuildGraph(m: map<string, seq<string>>) returns (G: DiGraph)
    ensures G.Valid() && G.Typed()
    ensures G.nodes == m.Keys + Mentioned(m, m.Keys)
    ensures G.edges == DependsEdges(m, m.Keys)
  {
    G := EmptyGraph();
    var done: set<string> := {};
    while done != m.Keys
      invariant done <= m.Keys
      invariant G.Valid() && G.Typed()
      invariant G.nodes == done + Mentioned(m, done)
      invariant G.edges == DependsEdges(m, done)
      decreases |m.Keys - done|
    {
      var p :| p in m.Keys - done;
      G := AddPackage(G, p, m[p]);
      MentionedStep(m, done, p);
      done := done + {p};
    }
  }
}
