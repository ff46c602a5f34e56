# npm dependency graph crawler — a Dafny model

`populate_npm_dependency_graph.py` crawls npm's "most depended upon" listing,
resolves each listed package's dependencies to a bounded depth, assembles a
directed graph with `PACKAGE` nodes and `DEPENDS` edges, and turns that graph
into a batch of `node_create` / `edge_create` signals for a graph-hosting
service. This project models that crawl-and-assemble logic and proves what
it computes.

The network and the HTML extraction are replaced by two deterministic
oracles, passed as function values:

- `page: nat -> seq<string>` stands for `fetch_registry(offset)`, the package names
  read from the listing page at an offset;
- `deps: string -> seq<string>` stands for visiting a package's dependency tab
  and reading its dependency names.

Modules, one per component of the script:

- `Urls` — `npm_registry_url`, `npm_package_url` and Python's decimal rendering
  of an int, each with an inverse and a round-trip lemma.
- `Registry` — the module-level visit counter (a class) and the paginator
  `listPackages`. This is a method with the source's `while` loop and its inner
  `for` loop with `break`. It returns the names and the log of fetched offsets.
- `Resolver` — `find_deps` as a recursive function. It is specified against an
  independent reference `Within(seeds, k)`, the names at most `k` dependency hops
  from the seeds. A multiset `Fetches` counts how often each package is visited.
- `Graph` — the DiGraph as a value: a node set and an edge set, each with a
  `type` attribute map. `BuildGraph` is the assembly loop of
  `generate_grid_edgelist`, a method whose loop reassigns the graph; the inner
  loop over one package's dependencies is in `AddPackage`, which it calls.
- `Signals` — the two list comprehensions of `main` and the batch they form.
- `Pipeline` — `generate_grid_edgelist` composed from the pieces above, and the
  signal list of `main`.

What the code does, and where it differs from what one might expect of it:

- `listPackages(n)` returns exactly `n` names when `n > 0`, never more. The
  `break` fires as soon as the count reaches `n`, even in the middle of a page.
- `find_deps` does not deduplicate across levels. The frontier removes only the
  keys of the current call, so a package can be fetched again two or more levels
  deeper (never at the very next level, `NoRefetchNextLevel`).
  With a → b → a and depth 2, "a" is fetched twice (`TwoCycleRefetches`). With a
  3-cycle and depth 5 there are six fetches for three packages
  (`ThreeCycleFetches`). What is proved instead: each package is fetched at most
  once per level (`FetchesPerLevel`), so at most `max(0, depth) + 1` times in all
  (`FetchBound`), and the key set is exactly the bounded-hop closure.
- `dict.update` lets deeper results overwrite keys of the current call. Under a
  deterministic oracle the value is the same, so every key `k` of the result maps
  to `deps(k)`.
- A depth of 0 (or less) resolves the seeds only. An empty input resolves to the
  empty map with no fetches, at every depth the model admits. The source itself
  fails near Python's recursion limit (see "Left out").

## Model

| member | source | states |
|---|---|---|
| `Urls.RegistryUrl` | populate_npm_dependency_graph.py:34-38 | With no offset the URL is exactly the listing page URL; with an offset it is the listing URL, then `?offset=`, then exactly the decimal rendering of the offset |
| `Urls.RegistryUrlRoundTrip` | populate_npm_dependency_graph.py:34-38 | The offset (or its absence) can be read back from every listing URL |
| `Urls.IntToString` | populate_npm_dependency_graph.py:38 | The f-string rendering of an offset: non-empty, a leading `-` exactly for negative values, then decimal digits with no leading zero (a lone `0` for zero) |
| `Urls.IntRoundTrip` | populate_npm_dependency_graph.py:38 | The decimal text embedded in the URL (minus sign for negatives) parses back to the same integer |
| `Urls.PackageUrl` | populate_npm_dependency_graph.py:40-41 | The URL is the package page prefix, then the name, then `?activeTab=dependencies`, with the name at a fixed position |
| `Urls.PackageUrlRoundTrip` | populate_npm_dependency_graph.py:40-41 | The package name can be read back from its dependency-tab URL |
| `Urls.UrlsInjective` | populate_npm_dependency_graph.py:34-41 | Different offsets give different listing URLs; different names give different package URLs |
| `Registry.VisitCounter.constructor` | populate_npm_dependency_graph.py:22 | The counter starts at 0 |
| `Registry.VisitCounter.Reset` | populate_npm_dependency_graph.py:24-27 | Sets the counter to 0 and returns it |
| `Registry.VisitCounter.Increment` | populate_npm_dependency_graph.py:29-32 | Adds one to the counter and returns the new value |
| `Registry.ListPackages` | populate_npm_dependency_graph.py:54-64 | For `n <= 0`: no fetch, empty result. For `n > 0`, when every page the loop can reach before holding `n` names is non-empty: exactly `n` names. Every fetch is at the number of names collected before it. The result is a prefix of the fetched pages in order. Every page but the last was taken whole. The counter equals the number of fetches |
| `Registry.SparsePagesSuffice` | populate_npm_dependency_graph.py:58-63 | Pages with five names at each multiple of five and none elsewhere meet that requirement for every `n`, although the page at offset 1 is empty |
| `Registry.UniformPageOffsets` | populate_npm_dependency_graph.py:57-61 | With pages of a fixed size, the fetch offsets are 0, size, 2·size, … and each fetch adds one page of names |
| `Resolver.Lookup` | populate_npm_dependency_graph.py:70-72 | One call's map has exactly the call's packages as keys, each mapped to its dependency list |
| `Resolver.Frontier` | populate_npm_dependency_graph.py:74-76 | The names handed to the recursive call are listed dependencies of this call's packages and never one of those packages |
| `Resolver.FrontierMembers` | populate_npm_dependency_graph.py:74-76 | The recursive call gets exactly the names listed by some package of this call, minus this call's own packages |
| `Resolver.FindDeps` | populate_npm_dependency_graph.py:66-79 | Every input package is a key. Every key `k` maps to `deps(k)`, deeper overwrites included. At `depth <= level` the key set is the input set |
| `Resolver.FindDepsKeys` | populate_npm_dependency_graph.py:73-78 | The key set is exactly the names within `max(0, depth - level)` dependency hops of the input |
| `Resolver.EmptyInput` | populate_npm_dependency_graph.py:70-78 | An empty input yields the empty map and fetches nothing, at every depth |
| `Resolver.Fetches` | populate_npm_dependency_graph.py:70-77 | Every package of a call is visited by that call; with no recursion the visits are exactly the call's packages, once each |
| `Resolver.FetchedAreResolved` | populate_npm_dependency_graph.py:70-78 | A package is fetched iff it is a key of the result |
| `Resolver.FetchesPerLevel` | populate_npm_dependency_graph.py:70-77 | One call visits a package once if it is one of the call's packages and not at all otherwise; the deeper calls add their own visits |
| `Resolver.NoRefetchNextLevel` | populate_npm_dependency_graph.py:74-77 | A package of the current call is not visited by the next call; its next visit, if any, is two or more levels deeper |
| `Resolver.FetchBound` | populate_npm_dependency_graph.py:73-77 | Each package is fetched at most `max(0, depth - level) + 1` times in total |
| `Resolver.TwoCycleRefetches` | populate_npm_dependency_graph.py:74-77 | With a → b → a and depth 2, "a" is fetched twice while the result has two keys |
| `Resolver.ThreeCycleFetches` | populate_npm_dependency_graph.py:73-77 | With a 3-cycle and depth 5 there are six fetches |
| `Resolver.ThreeCycleKeys` | populate_npm_dependency_graph.py:73-78 | With the same 3-cycle the merged map has the three packages as keys |
| `Resolver.WithinAndPost` | populate_npm_dependency_graph.py:85-88 | The names within `k` hops plus their dependencies are exactly the names within `k + 1` hops |
| `Graph.EmptyGraph` | populate_npm_dependency_graph.py:84 | `nx.DiGraph()` has no nodes, edges or attributes, and is valid and typed |
| `Graph.DiGraph.AddNode` | populate_npm_dependency_graph.py:86 | The node is present with the given type; the type map is the old one with only that entry set; no other node, and no edge or edge type, changes. Edge-endpoint validity and typing are preserved |
| `Graph.DiGraph.AddEdge` | populate_npm_dependency_graph.py:89 | Both endpoints are nodes, and the edge is present with the given type; the edge type map is the old one with only that entry set; node types and the other edges are unchanged. Validity is preserved, and typing too when both endpoints were already typed nodes |
| `Graph.AddIdempotent` | populate_npm_dependency_graph.py:86-89 | Adding the same node or edge twice gives the same graph as adding it once |
| `Graph.AssembledUnique` | populate_npm_dependency_graph.py:84-89 | Two typed graphs with the same node and edge sets are equal, so the assembled graph does not depend on the order the map is iterated in |
| `Graph.AddPackage` | populate_npm_dependency_graph.py:86-89 | One package step adds the package and its dependencies as nodes, and an edge to each dependency, keeping every node `PACKAGE` and every edge `DEPENDS` |
| `Graph.BuildGraph` | populate_npm_dependency_graph.py:84-89 | Node set = map keys ∪ all listed dependencies. Edge set = {(p, d) \| d listed by p}. Every edge endpoint is a node. Every node is typed `PACKAGE` and every edge `DEPENDS` |
| `Signals.Listing` | populate_npm_dependency_graph.py:111-112 | Lists each node (or edge) of the graph exactly once |
| `Signals.NodeSignals` | populate_npm_dependency_graph.py:111 | One `node_create` per listed node, carrying its name and type, in order. Fails iff some listed node has no type |
| `Signals.EdgeSignals` | populate_npm_dependency_graph.py:112 | One `edge_create` per listed edge, carrying both endpoints' names and types, the edge type and weight 1, in order. Fails iff some type is missing |
| `Signals.Batch` | populate_npm_dependency_graph.py:111-112 | The batch exists iff both comprehensions succeed; it is the node signals followed by the edge signals, one per listed node and edge |
| `Signals.BatchDefined` | populate_npm_dependency_graph.py:111-112 | An assembled graph always yields a batch |
| `Signals.BatchLayout` | populate_npm_dependency_graph.py:111-112 | The batch is the `node_create` signals of all nodes (type `PACKAGE`) followed by the `edge_create` signals of all edges (type `DEPENDS`, weight 1) |
| `Signals.EdgesFollowNodes` | populate_npm_dependency_graph.py:111-112 | Each `edge_create` names a source and a target declared by earlier `node_create` signals |
| `Signals.UntypedNodeFails` | populate_npm_dependency_graph.py:111 | A listed node without a `type` attribute makes the batch fail, as the `KeyError` would |
| `Signals.EnumerationSize` | populate_npm_dependency_graph.py:111-112 | A listing without repetition is as long as the set it lists, so there is one signal per node and per edge |
| `Pipeline.ResolvedGraphSets` | populate_npm_dependency_graph.py:84-89 | For a resolved map, the listed dependencies are the oracle's dependencies of its keys, and so are the edges |
| `Pipeline.GenerateGridEdgelist` | populate_npm_dependency_graph.py:81-92 | The seeds are what `listPackages(size)` collects: exactly `size` names (none and no fetch for `size <= 0`), fetched at chained offsets, a prefix of the fetched pages in order with only the last page cut; the counter holds the number of listing fetches. The graph's nodes are exactly the names within `max(0, depth) + 1` hops of the seeds. Its edges go from each name within `max(0, depth)` hops to each of that name's dependencies. All nodes and edges are typed |
| `Pipeline.MainSignals` | populate_npm_dependency_graph.py:105-112 | The signal list is the batch for a listing of the graph's nodes and edges. For an assembled graph it exists and has one signal per node plus one per edge |

## Left out

- HTTP fetching (`requests.get` with verification off) and the progress `print` in `visit`: network I/O and console output. The `page` and `deps` oracles replace them.
- The lxml parsing and the two XPath queries: a foreign library. Only their result, a list of names, is modelled.
- `nx.write_edgelist` and `nx.read_edgelist`, and so the "load a saved graph and publish" path of `main`: foreign serialisation. The code makes no round-trip promise, and reading does not restore the node `type` attributes.
- The GraphCommons client, `new_graph` and the POST, the access-token literal, and the printing of the created graph's URL: a remote API.
- The command-line parsing, and the unused matplotlib import.
- The iteration order of dicts, sets and DiGraphs. `BuildGraph` takes the packages in an arbitrary order. `Listing` lists nodes and edges in an arbitrary order. The graph keeps sets, not networkx's insertion order. Every proved property holds for every order.
- `Resolver.Fetches` and `Resolver.FindDeps`: they take a set of packages. The top-level call in the source receives a list, and a list with a repeated name visits that name once per occurrence. The resulting map is the same, so only the visit count loses those repeats.
- `Registry.ListPackages`: it requires that every page the loop can fetch while it holds fewer than `n` names is non-empty, as `FetchedPagesNonEmpty` states. On such an empty page the source loops forever at the same offset, so the model does not cover that run.
- `Pipeline.GenerateGridEdgelist`: its counter ends at the number of listing fetches. In the source, `find_deps` resets the counter at every call (line 67) and counts its own visits, so the source's counter ends at the number of packages of the deepest `find_deps` call. The model does not track the counter through `FindDeps`.
- `Resolver.FindDeps` and `Resolver.EmptyInput`: every level of `find_deps` is a nested Python call (line 77), so with a depth near Python's default recursion limit of 1000 the source raises `RecursionError`, even on an empty input. The model returns a map at every depth.
- `Signals.EdgeSignals`, `Signals.BatchDefined` and `Pipeline.MainSignals`: line 112 reads endpoint types through `G.node[...]`, an API networkx removed in version 2.4. With a later networkx every graph with an edge fails there with `AttributeError`. The model follows the API the code was written against, where `G.node[x]` is the attribute map of node `x`.
- The progress `print` at the start of each `find_deps` call (line 69): console output.
- `Graph.DiGraph.AddEdge`: an endpoint it adds gets no attributes. In the script both endpoints were always added with a type just before, so this does not come up.
