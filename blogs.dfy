/** The paged blog list: the posts fetched once, filtered by title against
    the search term and shown ten to a page, with the page and term held as
    component state. The outcome of the fetch is an input. */
module Blogs {
  import opened Strings
  import opened Seqs
  import opened BlogService
  import Pagination

  const PostsPerPage := 10

  /** The lowercased title includes the lowercased term. */
  predicate TitleMatches(p: Post, term: string) {
    Contains(Lower(p.title), Lower(term))
  }

  /** `filteredPosts`: the posts whose title matches, in their order. */
  function FilterByTitle(posts: seq<Post>, term: string): (r: seq<Post>)
    ensures IsSubseq(r, posts)
    ensures forall p :: p in r <==> p in posts && TitleMatches(p, term)
  {
    Filter(posts, (p: Post) => TitleMatches(p, term))
  }

  /** An empty term keeps every post. */
  lemma EmptyTermKeepsAll(posts: seq<Post>, term: string)
    requires term == ""
    ensures FilterByTitle(posts, term) == posts
  {
    forall p | p in posts ensures TitleMatches(p, term) {
      ContainsEmpty(Lower(p.title));
    }
    FilterAll(posts, (p: Post) => TitleMatches(p, term));
  }

  /** `Math.ceil(n / postsPerPage)`: the fewest pages that hold n posts. */
  function TotalPages(n: nat): (r: nat)
    ensures r * PostsPerPage >= n
    ensures r > 0 ==> (r - 1) * PostsPerPage < n
  {
    (n + PostsPerPage - 1) / PostsPerPage
  }

  /** The posts page `page` shows: `slice(startIndex, startIndex + 10)`. */
  function PageOf(filtered: seq<Post>, page: int): (r: seq<Post>)
    requires page >= 1
    ensures |r| <= PostsPerPage
    ensures (page - 1) * PostsPerPage + |r| <= |filtered| || |r| == 0
    ensures forall i :: 0 <= i < |r| ==> r[i] == filtered[(page - 1) * PostsPerPage + i]
    ensures |r| == 0 <==> page > TotalPages(|filtered|)
  {
    var start := (page - 1) * PostsPerPage;
    Slice(filtered, start, start + PostsPerPage)
  }

  /** Pages 1 to m, in order. */
  function Pages(filtered: seq<Post>, m: nat): (r: seq<seq<Post>>)
    ensures |r| == m
    ensures forall k :: 0 <= k < m ==> r[k] == PageOf(filtered, k + 1)
  {
    seq(m, k requires 0 <= k < m => PageOf(filtered, k + 1))
  }

  lemma {:induction false} PagesPrefix(filtered: seq<Post>, m: nat)
    ensures Flatten(Pages(filtered, m)) == filtered[..Min(m * PostsPerPage, |filtered|)]
  {
    if m > 0 {
      PagesPrefix(filtered, m - 1);
      assert Pages(filtered, m) == Pages(filtered, m - 1) + [PageOf(filtered, m)];
      FlattenSnoc(Pages(filtered, m - 1), PageOf(filtered, m));
      var start := (m - 1) * PostsPerPage;
      if start < |filtered| {
        assert PageOf(filtered, m) == filtered[start..Min(start + PostsPerPage, |filtered|)];
        assert filtered[..Min(m * PostsPerPage, |filtered|)] ==
          filtered[..start] + filtered[start..Min(start + PostsPerPage, |filtered|)];
      }
    }
  }

  /** Read one after the other, pages 1 to totalPages give back the
      filtered posts exactly: no post is left out or shown twice. */
  lemma PagesCoverFiltered(filtered: seq<Post>)
    ensures Flatten(Pages(filtered, TotalPages(|filtered|))) == filtered
    ensures forall k :: 1 <= k <= TotalPages(|filtered|) ==> |PageOf(filtered, k)| > 0
  {
    PagesPrefix(filtered, TotalPages(|filtered|));
  }

  /** How the fetch of /api/posts ended. */
  datatype FetchOutcome =
    | Loaded(data: seq<Post>)
    | NotOk
    | Failed(message: Option<string>)

  /** What the component renders. */
  datatype Screen =
    | Skeleton
    | ErrorMessage(message: string)
    | NoPostsFound(links: seq<Pagination.PageLink>)
    | Cards(posts: seq<Post>, links: seq<Pagination.PageLink>)

  class BlogsPage {
    var posts: seq<Post>
    var isLoading: bool
    var error: Option<string>
    var currentPage: int
    var searchTerm: string

    /** The page is never below 1: it starts there, searches reset it
        there and the pagination forwards only pages from 1 up. */
    predicate Valid()
      reads this
    {
      currentPage >= 1
    }

    constructor ()
      ensures Valid()
      ensures posts == [] && isLoading && error == None && currentPage == 1 && searchTerm == ""
    {
      posts := [];
      isLoading := true;
      error := None;
      currentPage := 1;
      searchTerm := "";
    }

    function Filtered(): seq<Post>
      reads this
    {
      FilterByTitle(posts, searchTerm)
    }

    function CurrentPosts(): seq<Post>
      reads this
      requires Valid()
    {
      PageOf(Filtered(), currentPage)
    }

    /** handleSearch: the new term, back on page 1, which shows the first
        ten matching posts and is empty only when nothing matches. */
    method HandleSearch(term: string)
      requires Valid()
      modifies this
      ensures Valid()
      ensures searchTerm == term && currentPage == 1
      ensures posts == old(posts) && isLoading == old(isLoading) && error == old(error)
      ensures CurrentPosts() == Filtered()[..Min(PostsPerPage, |Filtered()|)]
      ensures |CurrentPosts()| == 0 <==> |FilterByTitle(posts, term)| == 0
    {
      searchTerm := term;
      currentPage := 1;
      assert CurrentPosts() == Filtered()[..Min(PostsPerPage, |Filtered()|)];
    }

    /** The end of fetchBlogs: the posts on success, the error message
        otherwise, and loading over either way. */
    method FetchCompleted(outcome: FetchOutcome)
      requires Valid()
      modifies this
      ensures Valid()
      ensures !isLoading
      ensures currentPage == old(currentPage) && searchTerm == old(searchTerm)
      ensures outcome.Loaded? ==> posts == outcome.data && error == old(error)
      ensures outcome.NotOk? ==> posts == old(posts) && error == Some("Failed to fetch posts")
      ensures outcome.Failed? ==>
        posts == old(posts) && error == Some(if outcome.message.Some? then outcome.message.value else "An error occurred")
      ensures outcome.NotOk? ==> View() == ErrorMessage("Failed to fetch posts")
      ensures outcome.Failed? && outcome.message.None? ==> View() == ErrorMessage("An error occurred")
      ensures outcome.Failed? && outcome.message == Some("") ==> !View().ErrorMessage?
    {
      match outcome {
        case Loaded(data) =>
          posts := data;
        case NotOk =>
          error := Some("Failed to fetch posts");
        case Failed(message) =>
          error := Some(if message.Some? then message.value else "An error occurred");
      }
      isLoading := false;
    }

    /** A page requested through the pagination bar: taken when it exists,
        ignored otherwise. A page taken always has posts to show. */
    method PageRequested(page: int)
      requires Valid()
      modifies this
      ensures Valid()
      ensures posts == old(posts) && searchTerm == old(searchTerm)
      ensures isLoading == old(isLoading) && error == old(error)
      ensures 1 <= page <= TotalPages(|Filtered()|) ==> currentPage == page && |CurrentPosts()| > 0
      ensures !(1 <= page <= TotalPages(|Filtered()|)) ==> currentPage == old(currentPage)
    {
      var forwarded := Pagination.HandlePageChange(page, TotalPages(|Filtered()|));
      if forwarded.Some? {
        currentPage := forwarded.value;
      }
    }

    /** The rendered list: the skeleton while loading, the error when it is
        truthy, else "No posts found" for an empty page under a non-empty
        term or the page's cards, both above the pagination links. */
    function View(): (s: Screen)
      reads this
      requires Valid()
      ensures s.Skeleton? <==> isLoading
      ensures s.ErrorMessage? <==> !isLoading && error.Some? && error.value != ""
      ensures s.ErrorMessage? ==> s.message == error.value
      ensures s.NoPostsFound? <==>
        !isLoading && (error.None? || error.value == "") && |CurrentPosts()| == 0 && searchTerm != ""
      ensures s.NoPostsFound? ==> !isLoading && |CurrentPosts()| == 0 && searchTerm != ""
      ensures s.Cards? ==> s.posts == CurrentPosts() && |s.links| == TotalPages(|Filtered()|)
      ensures (s.NoPostsFound? || s.Cards?) ==> s.links == Pagination.Links(currentPage, TotalPages(|Filtered()|))
      ensures !isLoading && (error.None? || error.value == "") && searchTerm == "" ==> s.Cards?
      ensures !isLoading && (error.None? || error.value == "") && |CurrentPosts()| > 0 ==> s.Cards?
    {
      var links := Pagination.Links(currentPage, TotalPages(|Filtered()|));
      if isLoading then Skeleton
      else if error.Some? && error.value != "" then ErrorMessage(error.value)
      else if |CurrentPosts()| == 0 && searchTerm != "" then NoPostsFound(links)
      else Cards(CurrentPosts(), links)
    }
  }
}
