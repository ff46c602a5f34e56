/**
 * `generate_grid_edgelist` and the signal batch of `main`: list the seed
 * packages, resolve their dependencies, assemble the graph, and translate
 * it into creation signals.
 */
module Pipeline {
  import opened Wrappers
  import opened Registry
  import opened Resolver
  import opened Graph
  import opened Signals

  /** A map whose every key maps to `deps` of that key, as `find_deps` results do. */
  ghost predicate Resolved(deps: DepsOracle, m: map<string, seq<string>>)
  {
    forall k :: k in m ==> m[k] == deps(k)
  }

  /** The dependency names and edges of a resolved map are those the oracle gives its keys. */
  lemma ResolvedGraphSets(deps: DepsOracle, m: map<string, seq<string>>)
    requires Resolved(deps, m)
    ensures Mentioned(m, m.Keys) == Post(deps, m.Keys)
    ensures forall e: Edge :: e in DependsEdges(m, m.Keys) <==> e.0 in m && e.1 in deps(e.0)
  {
    forall e: Edge | e.0 in m && e.1 in deps(e.0) ensures e in DependsEdges(m, m.Keys) {
      assert e.1 in m[e.0];
    }
  }

  /**
   * `generate_grid_edgelist(size, depth)` up to the disk write: the seeds
   * are what `listPackages(size)` collects from the listing pages, and the
   * graph holds exactly the names within `depth + 1` hops of them, with an
   * edge from each package within `depth` hops to each of its dependencies.
   */
  method GenerateGridEdgelist(page: PageOracle, deps: DepsOracle, size: int, depth: int,
                              counter: VisitCounter)
    returns (G: DiGraph, packages: seq<string>, offsets: seq<nat>)
    requires FetchedPagesNonEmpty(page, size)
    modifies counter
    ensures counter.count == |offsets|
    ensures size <= 0 ==> packages == [] && offsets == []
    ensures size > 0 ==> |packages| == size
    ensures Chained(page, offsets)
    ensures packages <= Collected(page, offsets)
    ensures size > 0 ==> offsets != [] && |Collected(page, offsets[..|offsets| - 1])| < size
    ensures G.Valid() && G.Typed()
    ensures G.nodes == Within(deps, Names(packages), (if depth > 0 then depth else 0) + 1)
    ensures forall e: Edge :: e in G.edges <==>
              e.0 in Within(deps, Names(packages), if depth > 0 then depth else 0) && e.1 in deps(e.0)
  {
    packages, offsets := ListPackages(page, size, counter);
    var resolved := FindDeps(deps, Names(packages), depth, 0);
    var hops: nat := if depth > 0 then depth else 0;
    FindDepsKeys(deps, Names(packages), depth, 0);
    ResolvedGraphSets(deps, resolved);
    WithinAndPost(deps, Names(packages), hops);
    G := BuildGraph(resolved);
  }

  /**
   * The signal list of `main`: the graph's nodes and edges are listed in
   * some order, then translated by `Batch`.
   */
  method MainSignals(G: DiGraph) returns (signals: Option<seq<Signal>>,
                                           nodeOrder: seq<string>, edgeOrder: seq<Edge>)
    ensures Enumerates(nodeOrder, G.nodes) && Enumerates(edgeOrder, G.edges)
    ensures signals == Batch(G, nodeOrder, edgeOrder)
    ensures G.Valid() && G.Typed() ==>
              signals.Some? && |signals.value| == |G.nodes| + |G.edges|
  {
    nodeOrder := Listing(G.nodes);
    edgeOrder := Listing(G.edges);
    signals := Batch(G, nodeOrder, edgeOrder);
    if G.Valid() && G.Typed() {
      BatchLayout(G, nodeOrder, edgeOrder);
      EnumerationSize(nodeOrder, G.nodes);
      EnumerationSize(edgeOrder, G.edges);
    }
  }
}
