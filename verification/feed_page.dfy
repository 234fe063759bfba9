/**
 * The feed page (pages/FeedPage.tsx): the working list narrowed by the
 * search text, and the notice shown when nothing is left.
 */
module FeedPage {
  import opened Types
  import opened Seqs
  import opened Text
  import NewestFirst

  /** A post matches when its text includes the query, ignoring case. */
  predicate Matches(p: PostView, query: string) {
    Contains(Lower(p.text), Lower(query))
  }

  /** The posts shown: those whose text matches the search text, in list order. */
  function FilteredPosts(posts: seq<PostView>, query: string): (r: seq<PostView>)
    ensures |r| <= |posts|
  {
    Filter(posts, (p: PostView) => Matches(p, query))
  }

  /** Exactly the matching posts are shown, in the order of the list. */
  lemma FilteredPostsAreTheMatches(posts: seq<PostView>, query: string)
    ensures forall p :: p in FilteredPosts(posts, query) <==> p in posts && Matches(p, query)
    ensures IsSubsequence(FilteredPosts(posts, query), posts)
  {
    FilterMembers(posts, (p: PostView) => Matches(p, query));
    FilterIsSubsequence(posts, (p: PostView) => Matches(p, query));
  }

  /** An empty search shows the whole list. */
  lemma EmptyQueryShowsAll(posts: seq<PostView>)
    ensures FilteredPosts(posts, "") == posts
  {
    forall p | p in posts ensures Matches(p, "") {
      ContainsEmpty(Lower(p.text));
    }
    FilterKeepsAll(posts, (p: PostView) => Matches(p, ""));
  }

  /** Case does not matter in the query: it is lowered before matching. */
  lemma QueryCaseIgnored(posts: seq<PostView>, query: string)
    ensures FilteredPosts(posts, Lower(query)) == FilteredPosts(posts, query)
  {
    LowerIdempotent(query);
    FilterAgreeing(posts, (p: PostView) => Matches(p, Lower(query)), (p: PostView) => Matches(p, query));
  }

  /** Searching the shown posts again with the same query changes nothing. */
  lemma SearchIdempotent(posts: seq<PostView>, query: string)
    ensures FilteredPosts(FilteredPosts(posts, query), query) == FilteredPosts(posts, query)
  {
    FilterIdempotent(posts, (p: PostView) => Matches(p, query));
  }

  /** A newest-first list stays newest first when searched. */
  lemma SearchKeepsNewestFirst(posts: seq<PostView>, query: string)
    requires NewestFirst.Sorted(posts)
    ensures NewestFirst.Sorted(FilteredPosts(posts, query))
  {
    NewestFirst.FilterKeepsSorted(posts, (p: PostView) => Matches(p, query));
  }

  /** The message shown in place of an empty feed. */
  datatype EmptyNotice = NoMatch(query: string) | NoPostsYet

  /** The notice under the feed, if any. */
  function Notice(posts: seq<PostView>, query: string): (n: Option<EmptyNotice>)
    ensures n.Some? <==> FilteredPosts(posts, query) == []
    ensures n.Some? ==> (n.value == NoPostsYet <==> query == "")
    ensures n.Some? && n.value.NoMatch? ==> n.value.query == query
  {
    if |FilteredPosts(posts, query)| != 0 then None
    else if query != "" then Some(NoMatch(query))
    else Some(NoPostsYet)
  }

  /** "No posts yet" appears exactly when there is no search and the list is empty. */
  lemma NoPostsYetMeansEmptyList(posts: seq<PostView>, query: string)
    ensures Notice(posts, query) == Some(NoPostsYet) <==> posts == [] && query == ""
  {
    if query == "" {
      EmptyQueryShowsAll(posts);
    }
  }
}
