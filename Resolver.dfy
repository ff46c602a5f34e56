/**
 * The dependency resolver `find_deps`: look up every package of one call,
 * then, while the level is below the depth, resolve the newly discovered
 * names one level deeper and merge the deeper result over this one.
 */
module Resolver {

  /** Stands in for visiting a package's dependency tab and extracting its dependency names. */
  type DepsOracle = string -> seq<string>

  /** Every name listed as a dependency of some package in `packages`. */
  function Post(deps: DepsOracle, packages: set<string>): set<string>
  {
    set p, d | p in packages && d in deps(p) :: d
  }

  /** The names handed to the recursive call (`deps_packages - keys`). */
  function Frontier(deps: DepsOracle, packages: set<string>): (r: set<string>)
    ensures r <= Post(deps, packages)
    ensures r !! packages
  {
    Post(deps, packages) - packages
  }

  /**
   * The recursive call receives exactly the names some package of this
   * call depends on, minus this call's own packages.
   */
  lemma FrontierMembers(deps: DepsOracle, packages: set<string>, d: string)
    ensures d in Frontier(deps, packages)
        <==> d !in packages && exists p :: p in packages && d in deps(p)
  {
    if d !in packages && exists p :: p in packages && d in deps(p) {
      var p :| p in packages && d in deps(p);
      assert d in Post(deps, packages);
    }
  }

  /** The map the three comprehensions of one call build: each package to its dependency list. */
  function Lookup(deps: DepsOracle, packages: set<string>): (r: map<string, seq<string>>)
    ensures r.Keys == packages
    ensures forall p :: p in r ==> r[p] == deps(p)
  {
    map p | p in packages :: deps(p)
  }

  /** `find_deps(packages, depth, level)`; the merge is `dict.update`, i.e. right-biased `+`. */
  function FindDeps(deps: DepsOracle, packages: set<string>, depth: int, level: int)
    : (r: map<string, seq<string>>)
    ensures packages <= r.Keys
    ensures forall k :: k in r ==> r[k] == deps(k)
    ensures depth <= level ==> r.Keys == packages
    decreases depth - level
  {
    var packageDeps := Lookup(deps, packages);
    if depth > level then
      packageDeps + FindDeps(deps, Frontier(deps, packages), depth, level + 1)
    else
      packageDeps
  }

  /** Reference definition: the names at most `hops` dependency hops away from `seeds`. */
  function Within(deps: DepsOracle, seeds: set<string>, hops: nat): set<string>
    decreases hops
  {
    if hops == 0 then seeds else seeds + Within(deps, Post(deps, seeds), hops - 1)
  }

  lemma {:induction false} WithinMonotone(deps: DepsOracle, a: set<string>, b: set<string>, hops: nat)
    requires a <= b
    ensures Within(deps, a, hops) <= Within(deps, b, hops)
    decreases hops
  {
    if hops > 0 {
      assert Post(deps, a) <= Post(deps, b);
      WithinMonotone(deps, Post(deps, a), Post(deps, b), hops - 1);
    }
  }

  lemma {:induction false} WithinUnion(deps: DepsOracle, a: set<string>, b: set<string>, hops: nat)
    ensures Within(deps, a + b, hops) == Within(deps, a, hops) + Within(deps, b, hops)
    decreases hops
  {
    if hops > 0 {
      assert Post(deps, a + b) == Post(deps, a) + Post(deps, b);
      WithinUnion(deps, Post(deps, a), Post(deps, b), hops - 1);
    }
  }

  lemma {:induction false} WithinGrows(deps: DepsOracle, seeds: set<string>, hops: nat)
    ensures Within(deps, seeds, hops) <= Within(deps, seeds, hops + 1)
    decreases hops
  {
    if hops > 0 {
      WithinGrows(deps, Post(deps, seeds), hops - 1);
    }
  }

  /** What is reachable from the seeds is reachable from the seeds plus the frontier alone. */
  lemma {:induction false} WithinViaFrontier(deps: DepsOracle, seeds: set<string>, hops: nat)
    ensures Within(deps, seeds, hops) <= seeds + Within(deps, Frontier(deps, seeds), hops)
    decreases hops
  {
    if hops > 0 {
      var post, front := Post(deps, seeds), Frontier(deps, seeds);
      assert post <= seeds + front;
      WithinMonotone(deps, post, seeds + front, hops - 1);
      WithinUnion(deps, seeds, front, hops - 1);
      WithinViaFrontier(deps, seeds, hops - 1);
      WithinGrows(deps, front, hops - 1);
      var a, b := Within(deps, seeds, hops - 1), Within(deps, front, hops - 1);
      var wp := Within(deps, post, hops - 1);
      var wf := Within(deps, front, hops);
      forall x | x in Within(deps, seeds, hops) ensures x in seeds + wf {
        if x !in seeds {
          assert x in wp;
          assert x in a + b;
        }
      }
    }
  }

  lemma PostUnion(deps: DepsOracle, a: set<string>, b: set<string>)
    ensures Post(deps, a + b) == Post(deps, a) + Post(deps, b)
  {
  }

  /** The names within `hops` hops together with their dependencies are those within `hops + 1`. */
  lemma {:induction false} WithinAndPost(deps: DepsOracle, seeds: set<string>, hops: nat)
    ensures Within(deps, seeds, hops) + Post(deps, Within(deps, seeds, hops))
         == Within(deps, seeds, hops + 1)
    decreases hops
  {
    if hops > 0 {
      var post := Post(deps, seeds);
      var inner := Within(deps, post, hops - 1);
      WithinAndPost(deps, post, hops - 1);
      PostUnion(deps, seeds, inner);
      assert post <= Within(deps, post, hops) by {
        if hops - 1 > 0 {
          assert Within(deps, post, hops) == post + Within(deps, Post(deps, post), hops - 1);
        }
      }
      assert Within(deps, seeds, hops) == seeds + inner;
      assert Within(deps, seeds, hops + 1) == seeds + Within(deps, post, hops);
    }
  }

  /** One step of the reference, taken through the frontier instead of all dependencies. */
  lemma WithinStep(deps: DepsOracle, seeds: set<string>, hops: nat)
    ensures Within(deps, seeds, hops + 1) == seeds + Within(deps, Frontier(deps, seeds), hops)
  {
    var post, front := Post(deps, seeds), Frontier(deps, seeds);
    WithinMonotone(deps, front, post, hops);
    assert post == (post * seeds) + front;
    WithinUnion(deps, post * seeds, front, hops);
    WithinMonotone(deps, post * seeds, seeds, hops);
    WithinViaFrontier(deps, seeds, hops);
  }

  /**
   * The packages `find_deps` resolves are exactly those at most
   * `depth - level` hops from its input: restricting the frontier to names
   * not in the current call loses nothing.
   */
  lemma {:induction false} FindDepsKeys(deps: DepsOracle, packages: set<string>, depth: int, level: int)
    ensures FindDeps(deps, packages, depth, level).Keys
         == Within(deps, packages, if depth > level then depth - level else 0)
    decreases depth - level
  {
    if depth > level {
      FindDepsKeys(deps, Frontier(deps, packages), depth, level + 1);
      WithinStep(deps, packages, depth - level - 1);
    }
  }

  /**
   * The packages fetched across all calls, with multiplicity: each call
   * visits every one of its own packages once.
   */
  function Fetches(deps: DepsOracle, packages: set<string>, depth: int, level: int): (r: multiset<string>)
    ensures multiset(packages) <= r
    ensures depth <= level ==> r == multiset(packages)
    decreases depth - level
  {
    multiset(packages)
      + if depth > level then Fetches(deps, Frontier(deps, packages), depth, level + 1) else multiset{}
  }

  /** Exactly the resolved packages are fetched. */
  lemma {:induction false} FetchedAreResolved(deps: DepsOracle, packages: set<string>, depth: int, level: int)
    ensures forall p :: p in Fetches(deps, packages, depth, level) <==> p in FindDeps(deps, packages, depth, level)
    decreases depth - level
  {
    if depth > level {
      FetchedAreResolved(deps, Frontier(deps, packages), depth, level + 1);
    }
  }

  /** One call visits a package once if it is among its packages and not at all otherwise. */
  lemma FetchesPerLevel(deps: DepsOracle, packages: set<string>, depth: int, level: int, p: string)
    ensures Fetches(deps, packages, depth, level)[p]
          == (if p in packages then 1 else 0)
           + (if depth > level then Fetches(deps, Frontier(deps, packages), depth, level + 1)[p] else 0)
  {
  }

  /**
   * A call's own packages are not handed to the next level, so a package
   * already fetched is fetched again two levels deeper at the earliest.
   */
  lemma NoRefetchNextLevel(deps: DepsOracle, packages: set<string>, depth: int, level: int, p: string)
    requires p in packages && depth > level
    ensures Fetches(deps, Frontier(deps, packages), depth, level + 1)[p]
          == (if depth > level + 1
              then Fetches(deps, Frontier(deps, Frontier(deps, packages)), depth, level + 2)[p]
              else 0)
  {
    FetchesPerLevel(deps, Frontier(deps, packages), depth, level + 1, p);
  }

  /** A package is fetched at most once per level, so at most `depth - level + 1` times. */
  lemma {:induction false} FetchBound(deps: DepsOracle, packages: set<string>, depth: int, level: int, p: string)
    ensures Fetches(deps, packages, depth, level)[p] <= (if depth > level then depth - level else 0) + 1
    decreases depth - level
  {
    if depth > level {
      FetchBound(deps, Frontier(deps, packages), depth, level + 1, p);
    }
  }

  /** Resolving nothing fetches nothing and yields the empty map, at every depth. */
  lemma {:induction false} EmptyInput(deps: DepsOracle, depth: int, level: int)
    ensures FindDeps(deps, {}, depth, level) == map[]
    ensures Fetches(deps, {}, depth, level) == multiset{}
    decreases depth - level
  {
    if depth > level {
      assert Frontier(deps, {}) == {};
      EmptyInput(deps, depth, level + 1);
    }
  }

  /** Two packages that depend on each other. */
  function TwoCycle(name: string): seq<string>
  {
    if name == "a" then ["b"] else if name == "b" then ["a"] else []
  }

  /**
   * The frontier only excludes the current call's own packages, so with
   * a -> b -> a and depth 2 the package "a" is fetched twice.
   */
  lemma TwoCycleRefetches()
    ensures Fetches(TwoCycle, {"a"}, 2, 0)["a"] == 2
    ensures FindDeps(TwoCycle, {"a"}, 2, 0).Keys == {"a", "b"}
  {
    TwoCycleFetches();
    TwoCycleKeys();
  }

  lemma TwoCycleFetches()
    ensures Fetches(TwoCycle, {"a"}, 2, 0)["a"] == 2
  {
    TwoCycleFrontiers();
    assert Fetches(TwoCycle, {"a"}, 2, 2)["a"] == 1;
    assert Fetches(TwoCycle, {"b"}, 2, 1)["a"] == 1;
  }

  lemma TwoCycleKeys()
    ensures FindDeps(TwoCycle, {"a"}, 2, 0).Keys == {"a", "b"}
  {
    TwoCycleFrontiers();
    assert FindDeps(TwoCycle, {"a"}, 2, 2).Keys == {"a"};
    assert FindDeps(TwoCycle, {"b"}, 2, 1).Keys == {"a", "b"};
  }

  lemma TwoCycleFrontiers()
    ensures Frontier(TwoCycle, {"a"}) == {"b"}
    ensures Frontier(TwoCycle, {"b"}) == {"a"}
  {
    assert "b" in TwoCycle("a");
    assert "a" in TwoCycle("b");
  }

  /** Three packages in a cycle a -> b -> c -> a. */
  function ThreeCycle(name: string): seq<string>
  {
    if name == "a" then ["b"] else if name == "b" then ["c"] else if name == "c" then ["a"] else []
  }

  lemma ThreeCycleFrontiers()
    ensures Frontier(ThreeCycle, {"a"}) == {"b"}
    ensures Frontier(ThreeCycle, {"b"}) == {"c"}
    ensures Frontier(ThreeCycle, {"c"}) == {"a"}
  {
    assert "b" in ThreeCycle("a");
    assert "c" in ThreeCycle("b");
    assert "a" in ThreeCycle("c");
  }

  /**
   * With a 3-cycle and depth 5 every one of the six levels fetches one
   * package: six fetches for three distinct packages.
   */
  lemma ThreeCycleFetches()
    ensures |Fetches(ThreeCycle, {"a"}, 5, 0)| == 6
  {
    ThreeCycleFrontiers();
    assert |Fetches(ThreeCycle, {"c"}, 5, 5)| == 1;
    assert |Fetches(ThreeCycle, {"b"}, 5, 4)| == 2;
    assert |Fetches(ThreeCycle, {"a"}, 5, 3)| == 3;
    assert |Fetches(ThreeCycle, {"c"}, 5, 2)| == 4;
    assert |Fetches(ThreeCycle, {"b"}, 5, 1)| == 5;
  }

  /** With the same 3-cycle the merged map holds the three packages once each. */
  lemma ThreeCycleKeys()
    ensures FindDeps(ThreeCycle, {"a"}, 5, 0).Keys == {"a", "b", "c"}
  {
    ThreeCycleFrontiers();
    assert FindDeps(ThreeCycle, {"c"}, 5, 5).Keys == {"c"};
    assert FindDeps(ThreeCycle, {"b"}, 5, 4).Keys == {"b", "c"};
    assert FindDeps(ThreeCycle, {"a"}, 5, 3).Keys == {"a", "b", "c"};
    assert FindDeps(ThreeCycle, {"c"}, 5, 2).Keys == {"a", "b", "c"};
    assert FindDeps(ThreeCycle, {"b"}, 5, 1).Keys == {"a", "b", "c"};
  }
}
