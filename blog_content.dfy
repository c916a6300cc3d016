/** The all-posts page: the search over title, excerpt, tags and category,
    the empty-state texts and the stats line. */
module BlogContent {
  import opened Strings
  import opened Seqs
  import opened BlogService

  /** The lowercased term occurs in the lowercased title, excerpt, some tag
      or the category. The term is lowercased but not trimmed. */
  predicate MatchesTerm(p: Post, term: string) {
    var t := Lower(term);
    Contains(Lower(p.title), t) || Contains(Lower(p.excerpt), t) ||
    (exists k :: 0 <= k < |p.tags| && Contains(Lower(p.tags[k]), t)) ||
    Contains(Lower(p.category), t)
  }

  /** `!searchTerm.trim()`. */
  predicate Blank(term: string) {
    Trim(term) == ""
  }

  /** `filteredPosts`: every post for a blank term, else the matching ones
      in their order. */
  function FilteredPosts(allPosts: seq<Post>, term: string): (r: seq<Post>)
    ensures IsSubseq(r, allPosts)
    ensures Blank(term) ==> r == allPosts
    ensures !Blank(term) ==> forall p :: p in r <==> p in allPosts && MatchesTerm(p, term)
  {
    if Blank(term) then
      IsSubseqRefl(allPosts);
      allPosts
    else
      Filter(allPosts, (p: Post) => MatchesTerm(p, term))
  }

  /** A term of spaces and tabs is blank and keeps everything. */
  lemma WhitespaceTermKeepsAll(allPosts: seq<Post>, term: string)
    requires forall i :: 0 <= i < |term| ==> IsSpace(term[i])
    ensures FilteredPosts(allPosts, term) == allPosts
  {
    TrimAllSpace(term);
  }

  /** A term typed as ideographic spaces is blank too. */
  lemma IdeographicSpaceTermKeepsAll(allPosts: seq<Post>, term: string)
    requires term == "\U{3000}\U{3000}"
    ensures FilteredPosts(allPosts, term) == allPosts
  {
    WhitespaceTermKeepsAll(allPosts, term);
  }

  /** Every post the service's searchPosts finds for a term is found here
      too: this search looks at the same two fields and more. */
  lemma WidensSearchPosts(allPosts: seq<Post>, term: string, p: Post)
    requires p in allPosts && MatchesQuery(p, term)
    ensures p in FilteredPosts(allPosts, term)
  {
  }

  /** The search ignores the letter case of the term. */
  lemma TermCaseIgnored(allPosts: seq<Post>, term: string)
    ensures FilteredPosts(allPosts, term) == FilteredPosts(allPosts, Upper(term))
  {
    BlankIffAllSpace(term);
    BlankIffAllSpace(Upper(term));
    UpperKeepsSpaces(term);
    LowerUpper(term);
    FilterSame(allPosts, (p: Post) => MatchesTerm(p, term), (p: Post) => MatchesTerm(p, Upper(term)));
  }

  /** The two empty-state lines. */
  datatype EmptyState = EmptyState(headline: string, hint: string)

  /** What the page shows below the search bar. */
  datatype PageView = PageView(
    cards: seq<Post>,
    emptyState: Option<EmptyState>,
    statsLabel: string,
    statsCount: nat,
    categoriesCount: nat,
    tagsCount: nat)

  function Render(allPosts: seq<Post>, term: string, categoriesCount: nat, tagsCount: nat): (v: PageView)
    ensures v.cards == FilteredPosts(allPosts, term)
    ensures v.emptyState.Some? <==> |FilteredPosts(allPosts, term)| == 0
    ensures v.emptyState.Some? && term != "" ==>
      v.emptyState.value == EmptyState("No posts found matching your search", "Try a different search term")
    ensures v.emptyState.Some? && term == "" ==>
      v.emptyState.value == EmptyState("No posts found", "Check back later for new content")
    ensures term != "" ==> v.statsLabel == "Showing:" && v.statsCount == |FilteredPosts(allPosts, term)|
    ensures term == "" ==> v.statsLabel == "Total Posts:" && v.statsCount == |allPosts|
    ensures v.statsCount <= |allPosts|
    ensures v.categoriesCount == categoriesCount && v.tagsCount == tagsCount
  {
    var filtered := FilteredPosts(allPosts, term);
    IsSubseqMembers(filtered, allPosts);
    var empty :=
      if |filtered| == 0 then
        Some(if term != "" then EmptyState("No posts found matching your search", "Try a different search term")
             else EmptyState("No posts found", "Check back later for new content"))
      else None;
    PageView(filtered, empty,
             if term != "" then "Showing:" else "Total Posts:",
             if term != "" then |filtered| else |allPosts|,
             categoriesCount, tagsCount)
  }
}
