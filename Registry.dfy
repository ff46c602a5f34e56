/**
 * The registry paginator: collects package names from the listing pages,
 * fetching each page at an offset equal to the number of names collected.
 */
module Registry {

  /** Stands in for `fetch_registry`: the names extracted from the page at an offset. */
  type PageOracle = nat -> seq<string>

  /** The module-level visit counter the script uses for progress messages. */
  class VisitCounter {
    var count: int

    constructor ()
      ensures count == 0
    {
      count := 0;
    }

    /** `reset_visit_counter`. */
    method Reset() returns (r: int)
      modifies this
      ensures count == 0 && r == count
    {
      count := 0;
      r := count;
    }

    /** `increment_visit_counter`, called once per page visit. */
    method Increment() returns (r: int)
      modifies this
      ensures count == old(count) + 1 && r == count
    {
      count := count + 1;
      r := count;
    }
  }

  /** The names of the pages fetched at `offsets`, concatenated in fetch order. */
  function Collected(page: PageOracle, offsets: seq<nat>): (names: seq<string>)
    ensures offsets == [] ==> names == []
  {
    if offsets == [] then []
    else Collected(page, offsets[..|offsets| - 1]) + page(offsets[|offsets| - 1])
  }

  /** Every fetch was made at the number of names the earlier fetches returned. */
  ghost predicate Chained(page: PageOracle, offsets: seq<nat>)
  {
    forall i :: 0 <= i < |offsets| ==> offsets[i] == |Collected(page, offsets[..i])|
  }

  /**
   * Every page the paginator can fetch before it holds `n` names is
   * non-empty: a fetch at the count of a chained log still short of `n`
   * returns at least one name. Pages at other offsets are unconstrained.
   */
  ghost predicate FetchedPagesNonEmpty(page: PageOracle, n: int)
  {
    forall offs: seq<nat> :: Chained(page, offs) && |Collected(page, offs)| < n ==>
      page(|Collected(page, offs)|) != []
  }

  /**
   * `listPackages`: fetch pages until `n` names are collected, stopping in
   * the middle of a page as soon as the count reaches `n`. `offsets` records
   * the offset of every page fetched, in order.
   */
  method ListPackages(page: PageOracle, n: int, counter: VisitCounter)
    returns (packages: seq<string>, offsets: seq<nat>)
    requires FetchedPagesNonEmpty(page, n)
    modifies counter
    ensures counter.count == |offsets|
    ensures n <= 0 ==> packages == [] && offsets == []
    ensures n > 0 ==> |packages| == n
    ensures Chained(page, offsets)
    ensures packages <= Collected(page, offsets)
    ensures n > 0 ==> offsets != [] && |Collected(page, offsets[..|offsets| - 1])| < n
  {
    var _ := counter.Reset();
    packages := [];
    offsets := [];
    var nextOffset: nat := 0;
    while nextOffset < n
      invariant nextOffset == |packages|
      invariant counter.count == |offsets|
      invariant n <= 0 ==> offsets == []
      invariant Chained(page, offsets)
      invariant packages <= Collected(page, offsets)
      invariant |packages| < |Collected(page, offsets)| ==> |packages| >= n
      invariant n > 0 ==> |packages| <= n
      invariant offsets != [] ==> |Collected(page, offsets[..|offsets| - 1])| < n
      decreases n - nextOffset
    {
      ghost var before := Collected(page, offsets);
      assert packages == before;
      var pg := page(nextOffset);
      var _ := counter.Increment();
      assert packages == before;
      ChainedAppend(page, offsets, nextOffset);
      offsets := offsets + [nextOffset];
      ghost var start := packages;
      var j := 0;
      while j < |pg|
        invariant 0 <= j <= |pg|
        invariant packages == start + pg[..j]
        invariant nextOffset == |packages|
        invariant |packages| < n
      {
        packages := packages + [pg[j]];
        nextOffset := |packages|;
        j := j + 1;
        if nextOffset >= n {
          break;
        }
      }
    }
  }

  /** Fetching at the current count extends the chain by one whole page. */
  lemma ChainedAppend(page: PageOracle, offsets: seq<nat>, o: nat)
    requires Chained(page, offsets)
    requires o == |Collected(page, offsets)|
    ensures Chained(page, offsets + [o])
    ensures Collected(page, offsets + [o]) == Collected(page, offsets) + page(o)
    ensures (offsets + [o])[..|offsets|] == offsets
  {
    var next := offsets + [o];
    assert next[..|next| - 1] == offsets;
    forall i | 0 <= i < |next| ensures next[i] == |Collected(page, next[..i])| {
      if i < |offsets| {
        assert next[..i] == offsets[..i];
      }
    }
  }

  /**
   * With pages of a fixed size, the fetches are made at 0, size, 2*size, ...
   * and the pages concatenate to `size` names per fetch.
   */
  lemma {:induction false} UniformPageOffsets(page: PageOracle, size: nat, offsets: seq<nat>)
    requires forall o: nat :: |page(o)| == size
    requires Chained(page, offsets)
    ensures |Collected(page, offsets)| == |offsets| * size
    ensures forall i :: 0 <= i < |offsets| ==> offsets[i] == i * size
  {
    if offsets != [] {
      var init := offsets[..|offsets| - 1];
      assert Chained(page, init) by {
        forall i | 0 <= i < |init| ensures init[i] == |Collected(page, init[..i])| {
          assert init[..i] == offsets[..i];
        }
      }
      UniformPageOffsets(page, size, init);
      assert offsets[..|offsets| - 1] == init;
      forall i | 0 <= i < |offsets| ensures offsets[i] == i * size {
        if i < |init| {
          assert offsets[i] == init[i];
        } else {
          assert offsets[..i] == init;
        }
      }
    }
  }


  /** A listing with five names at every multiple of five and nothing in between. */
  function SparsePages(o: nat): seq<string>
  {
    if o % 5 == 0 then ["a", "b", "c", "d", "e"] else []
  }

  /** On those pages the paginator only ever fetches at multiples of five. */
  lemma {:induction false} SparseCollect(offsets: seq<nat>)
    requires Chained(SparsePages, offsets)
    ensures |Collected(SparsePages, offsets)| % 5 == 0
  {
    if offsets != [] {
      var init := offsets[..|offsets| - 1];
      assert Chained(SparsePages, init) by {
        forall i | 0 <= i < |init| ensures init[i] == |Collected(SparsePages, init[..i])| {
          assert init[..i] == offsets[..i];
        }
      }
      SparseCollect(init);
      assert offsets[..|offsets| - 1] == init;
      assert offsets[|offsets| - 1] == |Collected(SparsePages, init)|;
    }
  }

  /**
   * So the paginator never stalls on them at any target count, although
   * the page at offset 1 is empty.
   */
  lemma SparsePagesSuffice(n: int)
    ensures FetchedPagesNonEmpty(SparsePages, n)
    ensures SparsePages(1) == []
  {
    forall offs: seq<nat> | Chained(SparsePages, offs) && |Collected(SparsePages, offs)| < n
      ensures SparsePages(|Collected(SparsePages, offs)|) != []
    {
      SparseCollect(offs);
    }
  }
}
