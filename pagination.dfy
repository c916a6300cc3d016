/** The pagination bar: the numbered links, which one is active, and the
    guard that forwards a page request only when the page exists. */
module Pagination {
  import opened Seqs

  /** handlePageChange: the page passed on to `onPageChange`, or None when
      the request is dropped. */
  function HandlePageChange(page: int, totalPages: int): (r: Option<int>)
    ensures r.Some? <==> 1 <= page <= totalPages
    ensures r.Some? ==> r.value == page
  {
    if page >= 1 && page <= totalPages then Some(page) else None
  }

  /** The Previous control asks for the page before the current one. */
  function Previous(currentPage: int, totalPages: int): Option<int> {
    HandlePageChange(currentPage - 1, totalPages)
  }

  /** The Next control asks for the page after the current one. */
  function Next(currentPage: int, totalPages: int): Option<int> {
    HandlePageChange(currentPage + 1, totalPages)
  }

  /** Previous on the first page and Next on the last change nothing; from
      any other page within range they move by one. */
  lemma PreviousNextAtEdges(currentPage: int, totalPages: int)
    ensures currentPage == 1 ==> Previous(currentPage, totalPages).None?
    ensures currentPage == totalPages ==> Next(currentPage, totalPages).None?
    ensures 1 < currentPage <= totalPages + 1 ==> Previous(currentPage, totalPages) == Some(currentPage - 1)
    ensures 0 <= currentPage < totalPages ==> Next(currentPage, totalPages) == Some(currentPage + 1)
  {
  }

  /** With no pages every request is dropped. */
  lemma NoPagesIgnoresAll(page: int)
    ensures HandlePageChange(page, 0).None?
  {
  }

  datatype PageLink = PageLink(number: nat, active: bool)

  /** `Array.from({ length: totalPages }, ...)`: link k + 1 for each index
      k, active when it is the current page. */
  function Links(currentPage: int, totalPages: nat): (r: seq<PageLink>)
    ensures |r| == totalPages
    ensures forall k :: 0 <= k < totalPages ==> r[k].number == k + 1
    ensures forall k :: 0 <= k < totalPages ==> (r[k].active <==> currentPage == k + 1)
  {
    seq(totalPages, k requires 0 <= k < totalPages => PageLink(k + 1, currentPage == k + 1))
  }

  /** At most one link is active, and one is exactly when the current page
      is within range; clicking any link is forwarded. */
  lemma LinksActive(currentPage: int, totalPages: nat)
    ensures forall j, k :: 0 <= j < k < totalPages ==> !(Links(currentPage, totalPages)[j].active && Links(currentPage, totalPages)[k].active)
    ensures (exists k :: 0 <= k < totalPages && Links(currentPage, totalPages)[k].active) <==> 1 <= currentPage <= totalPages
    ensures forall k :: 0 <= k < totalPages ==> HandlePageChange(Links(currentPage, totalPages)[k].number, totalPages) == Some(k + 1)
  {
    var links := Links(currentPage, totalPages);
    if 1 <= currentPage <= totalPages {
      assert links[currentPage - 1].active;
    }
  }
}
