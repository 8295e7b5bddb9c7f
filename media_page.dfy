/** The news and media page: the posts shown for the `search` and `category`
    query parameters. */
module MediaPage {
  import opened Wrappers
  import opened Strings
  import opened Seqs
  import opened FileData

  /** No search text, or the lowercased text occurs in the lowercased title or summary. */
  predicate MatchesSearch(post: Post, search: Option<string>)
  {
    !Truthy(search)
    || Contains(Lower(post.title), Lower(search.value))
    || Contains(Lower(post.summary), Lower(search.value))
  }

  /** No category, or exactly the post's category (case matters). */
  predicate MatchesCategory(post: Post, category: Option<string>)
  {
    !Truthy(category) || post.category == category.value
  }

  predicate Shown(post: Post, search: Option<string>, category: Option<string>)
  {
    MatchesSearch(post, search) && MatchesCategory(post, category)
  }

  /** `filteredPosts`. */
  function FilterPosts(posts: seq<Post>, search: Option<string>, category: Option<string>): (r: seq<Post>)
    ensures |r| <= |posts|
  {
    Filter((p: Post) => Shown(p, search, category), posts)
  }

  /** The shown posts keep their order and are drawn from the posts. */
  lemma FilteredIsSubsequence(posts: seq<Post>, search: Option<string>, category: Option<string>)
    ensures Subsequence(FilterPosts(posts, search, category), posts)
  {
    FilterSubsequence((p: Post) => Shown(p, search, category), posts);
  }

  /** Without search text and category every post is shown. */
  lemma NoFiltersShowAll(posts: seq<Post>, search: Option<string>, category: Option<string>)
    requires !Truthy(search) && !Truthy(category)
    ensures FilterPosts(posts, search, category) == posts
  {
    FilterAll((p: Post) => Shown(p, search, category), posts);
  }

  /** A post is shown iff its category matches exactly (when one is given) and
      the search text occurs in its title or summary, ignoring ASCII case
      (when one is given). */
  lemma ShownIff(posts: seq<Post>, search: Option<string>, category: Option<string>, i: nat)
    requires i < |posts|
    ensures posts[i] in FilterPosts(posts, search, category) <==>
      && (Truthy(category) ==> posts[i].category == category.value)
      && (Truthy(search) ==> Contains(Lower(posts[i].title), Lower(search.value))
                             || Contains(Lower(posts[i].summary), Lower(search.value)))
  {
  }

  /** With a category given, every shown post has exactly that category. */
  lemma CategoryIsExact(posts: seq<Post>, search: Option<string>, category: Option<string>)
    requires Truthy(category)
    ensures forall k :: 0 <= k < |FilterPosts(posts, search, category)| ==>
      FilterPosts(posts, search, category)[k].category == category.value
  {
  }

  /** Filtering the shown posts again changes nothing. */
  lemma FilterIdempotent(posts: seq<Post>, search: Option<string>, category: Option<string>)
    ensures FilterPosts(FilterPosts(posts, search, category), search, category) == FilterPosts(posts, search, category)
  {
    var keep := (p: Post) => Shown(p, search, category);
    FilterFilter(keep, keep, keep, posts);
  }

  /** Applying the search alone and the category alone, in either order, shows
      the same posts as applying both at once. */
  lemma FiltersCommute(posts: seq<Post>, search: Option<string>, category: Option<string>)
    ensures FilterPosts(FilterPosts(posts, search, None), None, category) == FilterPosts(posts, search, category)
    ensures FilterPosts(FilterPosts(posts, None, category), search, None) == FilterPosts(posts, search, category)
  {
    var s := (p: Post) => Shown(p, search, None);
    var c := (p: Post) => Shown(p, None, category);
    var both := (p: Post) => Shown(p, search, category);
    FilterFilter(c, s, both, posts);
    FilterFilter(s, c, both, posts);
  }
}
