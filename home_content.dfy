/** The home page list: up to three featured (else recent) posts, replaced
    by a search over all posts while the term is not blank, and the line
    counting the results. */
module HomeContent {
  import opened Strings
  import opened Seqs
  import opened BlogService
  import opened BlogContent

  const InitialCount := 3

  /** `initialPosts`: the first three featured posts when there are any,
      else the first three of all posts. */
  function InitialPosts(allPosts: seq<Post>, featuredPosts: seq<Post>): (r: seq<Post>)
    ensures |r| <= InitialCount
    ensures |featuredPosts| > 0 ==> r == featuredPosts[..Min(InitialCount, |featuredPosts|)]
    ensures |featuredPosts| == 0 ==> r == allPosts[..Min(InitialCount, |allPosts|)]
  {
    if |featuredPosts| > 0 then Slice(featuredPosts, 0, InitialCount) else Slice(allPosts, 0, InitialCount)
  }

  /** `filteredPosts`: the initial posts for a blank term; otherwise the
      posts among all posts, featured or not, that match the term. */
  function HomeFiltered(allPosts: seq<Post>, featuredPosts: seq<Post>, term: string): (r: seq<Post>)
    ensures Blank(term) ==> r == InitialPosts(allPosts, featuredPosts)
    ensures !Blank(term) ==> IsSubseq(r, allPosts)
    ensures !Blank(term) ==> forall p :: p in r <==> p in allPosts && MatchesTerm(p, term)
  {
    if Blank(term) then InitialPosts(allPosts, featuredPosts)
    else FilteredPosts(allPosts, term)
  }

  /** On the home page built from the post index, whatever is listed is a
      post of the index, newest first, and at most three are listed
      without a search. */
  lemma HomeListsIndexPosts(dir: Directory, now: int, term: string)
    ensures var all := GetAllPosts(dir, now);
      var shown := HomeFiltered(all, GetFeaturedPosts(dir, now), term);
      IsSubseq(shown, all) && NewestFirst(shown) &&
      (Blank(term) ==> |shown| <= InitialCount)
  {
    var all := GetAllPosts(dir, now);
    var featured := GetFeaturedPosts(dir, now);
    var shown := HomeFiltered(all, featured, term);
    if Blank(term) {
      if |featured| > 0 {
        PrefixIsSubseq(featured, |shown|);
        IsSubseqTrans(shown, featured, all);
      } else {
        PrefixIsSubseq(all, |shown|);
      }
    }
    SubseqNewestFirst(shown, all);
  }

  /** A subsequence of a newest-first list is newest first. */
  lemma {:induction false} SubseqNewestFirst(a: seq<Post>, b: seq<Post>)
    requires IsSubseq(a, b) && NewestFirst(b)
    ensures NewestFirst(a)
    decreases |b|
  {
    if |a| > 0 {
      assert NewestFirst(b[1..]);
      if a[0] == b[0] {
        SubseqNewestFirst(a[1..], b[1..]);
        IsSubseqMembers(a[1..], b[1..]);
        forall y | y in a[1..] ensures y.date <= a[0].date {
          var k :| 0 <= k < |b[1..]| && b[1..][k] == y;
          assert y == b[k + 1];
        }
        NewestFirstCons(a[0], a[1..]);
        assert [a[0]] + a[1..] == a;
      } else {
        SubseqNewestFirst(a, b[1..]);
      }
    }
  }

  /** "result" for exactly one post, "results" otherwise. */
  function ResultWord(count: nat): (w: string)
    ensures w == "result" <==> count == 1
    ensures w == "results" <==> count != 1
  {
    "result" + (if count != 1 then "s" else "")
  }

  /** The line above the list, shown only while the term is non-empty. */
  function ResultMessage(term: string, count: nat): (r: Option<string>)
    ensures r.Some? <==> term != ""
    ensures r.Some? ==> r.value == "Showing " + NatToString(count) + " " + ResultWord(count) + " for \"" + term + "\""
  {
    if term != "" then
      Some("Showing " + NatToString(count) + " result" + (if count != 1 then "s" else "") + " for \"" + term + "\"")
    else None
  }

  datatype HomeView = HomeView(message: Option<string>, cards: seq<Post>, noResults: bool)

  function Render(allPosts: seq<Post>, featuredPosts: seq<Post>, term: string): (v: HomeView)
    ensures v.cards == HomeFiltered(allPosts, featuredPosts, term)
    ensures v.noResults <==> |v.cards| == 0
    ensures v.message.Some? <==> term != ""
    ensures v.message == ResultMessage(term, |v.cards|)
  {
    var shown := HomeFiltered(allPosts, featuredPosts, term);
    HomeView(ResultMessage(term, |shown|), shown, |shown| == 0)
  }

  /** With no posts at all, the page shows the "No posts found matching
      your search" box even before anything is searched. */
  lemma EmptySiteShowsSearchMessage(term: string)
    requires term == ""
    ensures Render([], [], term).noResults && Render([], [], term).message.None?
  {
  }
}
