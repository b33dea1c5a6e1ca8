/** The registry paginator (`get_github_packages`): pages through the packages
    of one package type, page 1 first, `PageSize` packages per page, until a
    page comes back shorter than `PageSize` or a request fails.

    The registry is given as the sequence of responses it gives to successive
    requests: `registry[k]` answers the (k+1)-th request. */
module Pagination {
  import opened Records

  /** The query of one packages request. */
  datatype Request = Request(packageType: string, perPage: nat, page: nat)

  /** A response after which the loop asks for no further page: a non-OK
      status, or a page shorter than `PageSize`. */
  predicate Stops(r: PackagesResponse) {
    r.PageErr? || |r.packages| < PageSize
  }

  /** The registry eventually gives a response that ends the loop; otherwise
      the loop never ends. */
  predicate Terminates(registry: seq<PackagesResponse>) {
    exists k :: 0 <= k < |registry| && Stops(registry[k])
  }

  lemma TerminatesTail(registry: seq<PackagesResponse>)
    requires Terminates(registry) && !Stops(registry[0])
    ensures Terminates(registry[1..])
  {
    var k :| 0 <= k < |registry| && Stops(registry[k]);
    assert registry[1..][k - 1] == registry[k];
  }

  /** Index of the response to the last request made: the first response that
      stops the loop. */
  function StopIndex(registry: seq<PackagesResponse>): (n: nat)
    requires Terminates(registry)
    ensures n < |registry| && Stops(registry[n])
    ensures forall k :: 0 <= k < n ==> !Stops(registry[k])
    decreases |registry|
  {
    if Stops(registry[0]) then 0
    else
      TerminatesTail(registry);
      1 + StopIndex(registry[1..])
  }

  /** The pages the generator yields, in order. The case of a registry that
      runs out of responses only arises when it does not terminate, and then
      the generator itself never finishes. */
  function Yielded(registry: seq<PackagesResponse>): seq<seq<Package>>
    decreases |registry|
  {
    if registry == [] then []
    else
      match registry[0]
      case PageErr(_) => []
      case PageOk(packages) =>
        if |packages| < PageSize then [packages] else [packages] + Yielded(registry[1..])
  }

  /** What is yielded: the OK page of every request made, in request order,
      up to and including a short final page; a failing final request yields
      nothing. Every yielded page but the last is full, and a last page that
      ended the loop is short. */
  lemma {:induction false} YieldedPages(registry: seq<PackagesResponse>)
    requires Terminates(registry)
    ensures var n := StopIndex(registry);
      |Yielded(registry)| == if registry[n].PageOk? then n + 1 else n
    ensures forall k :: 0 <= k < |Yielded(registry)| ==>
      registry[k].PageOk? && Yielded(registry)[k] == registry[k].packages
    ensures forall k :: 0 <= k < StopIndex(registry) ==> |Yielded(registry)[k]| >= PageSize
    ensures registry[StopIndex(registry)].PageOk? ==>
      |Yielded(registry)[StopIndex(registry)]| < PageSize
    decreases |registry|
  {
    if !Stops(registry[0]) {
      TerminatesTail(registry);
      YieldedPages(registry[1..]);
    }
  }

  /** A failing first request yields no page at all. */
  lemma FirstRequestFails(registry: seq<PackagesResponse>)
    requires |registry| > 0 && registry[0].PageErr?
    ensures Terminates(registry) && StopIndex(registry) == 0 && Yielded(registry) == []
  {
    assert Stops(registry[0]);
  }

  /** Up to the last request, a response stops the loop exactly when it is
      the last one. */
  lemma StopsAt(registry: seq<PackagesResponse>, i: nat)
    requires Terminates(registry) && i <= StopIndex(registry)
    ensures i < |registry|
    ensures Stops(registry[i]) <==> i == StopIndex(registry)
  {
  }

  /** The pages of the requests made, when they make up as many pages as
      the generator yields, are exactly what it yields. */
  lemma PagesAreYielded(registry: seq<PackagesResponse>, pages: seq<seq<Package>>)
    requires Terminates(registry)
    requires |pages| == if registry[StopIndex(registry)].PageOk? then StopIndex(registry) + 1 else StopIndex(registry)
    requires forall k :: 0 <= k < |pages| ==> k < |registry| && registry[k].PageOk? && pages[k] == registry[k].packages
    ensures pages == Yielded(registry)
  {
    YieldedPages(registry);
  }

  /** Runs the paginator against `registry` and returns the pages it yields and
      the requests it makes. The k-th request (from 1) asks for page k with
      `per_page` `PageSize`; requests go on exactly up to the first response
      that stops the loop, so at least one is made. */
  method GetGithubPackages(packageType: string, registry: seq<PackagesResponse>)
    returns (pages: seq<seq<Package>>, requests: seq<Request>)
    requires Terminates(registry)
    ensures pages == Yielded(registry)
    ensures |requests| == StopIndex(registry) + 1
    ensures forall k :: 0 <= k < |requests| ==>
      requests[k] == Request(packageType, PageSize, DefaultPageNumber + k)
  {
    ghost var stop := StopIndex(registry);
    var page := DefaultPageNumber;
    var pageSize := PageSize;
    pages, requests := [], [];
    while pageSize >= PageSize
      invariant DefaultPageNumber <= page
      invariant |requests| == page - DefaultPageNumber
      invariant forall k :: 0 <= k < |requests| ==>
        requests[k] == Request(packageType, PageSize, DefaultPageNumber + k)
      invariant |pages| == |requests|
      invariant forall k :: 0 <= k < |pages| ==>
        k < |registry| && registry[k].PageOk? && pages[k] == registry[k].packages
      invariant pageSize >= PageSize ==> |requests| <= stop
      invariant pageSize < PageSize ==> |requests| == stop + 1 && registry[stop].PageOk?
      decreases stop + 1 - |requests|
    {
      var i := page - DefaultPageNumber;
      StopsAt(registry, i);
      requests := requests + [Request(packageType, PageSize, page)];
      var response := registry[i];
      if response.PageErr? {
        PagesAreYielded(registry, pages);
        return;
      }
      var packages := response.packages;
      pageSize := |packages|;
      page := page + 1;
      pages := pages + [packages];
    }
    PagesAreYielded(registry, pages);
  }
}
