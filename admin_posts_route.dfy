/** `GET` and `POST` of the admin posts route: list posts newest first, and insert
    a post whose slug is derived from its title. */
module AdminPostsRoute {
  import opened Wrappers
  import opened Strings
  import opened Slug
  import opened Store
  import opened SupabaseData

  /** The fields the route reads from the JSON body; absent ones are None. */
  datatype PostBody = PostBody(
    title: Option<string>,
    summary: Option<string>,
    content: Option<string>,
    imageUrl: Option<string>,
    category: Option<string>,
    author: Option<string>)

  datatype PostsResponse =
    | PostList(posts: seq<Record<PostRow>>)
    | PostCreated(post: Record<PostRow>)
    | ServerError(error: string)
  {
    function Status(): nat
    {
      if ServerError? then 500 else 200
    }
  }

  /** `postData`: the six fields copied, plus the slug of the title; calling
      `toLowerCase` on a missing title throws. */
  function PostData(b: PostBody): (r: Result<PostRow, Thrown>)
    ensures b.title.None? <==> r.Err?
    ensures r.Ok? ==> (r.value.title == b.title.value && r.value.slug == Slugify(b.title.value)
                       && r.value.summary == b.summary && r.value.content == b.content
                       && r.value.imageUrl == b.imageUrl && r.value.category == b.category
                       && r.value.author == b.author)
  {
    match b.title
    case None => Err(TypeError)
    case Some(title) =>
      Ok(PostRow(title, b.summary, b.content, b.imageUrl, b.category, b.author, Slugify(title)))
  }

  /** The route and `createPost` build the same row from the same fields, whatever
      slug the `createPost` caller supplied. */
  lemma RouteAgreesWithCreatePost(b: PostBody, suppliedSlug: Option<string>)
    ensures PostData(b) == CreatePostRow(PostDraft(b.title, b.summary, b.content, b.imageUrl,
                                                   b.category, b.author, suppliedSlug))
  {
  }

  /** A stored post's slug is a well-formed slug that keeps the title's letters and digits. */
  lemma CreatedSlugIsWellFormed(b: PostBody)
    requires PostData(b).Ok?
    ensures IsSlug(PostData(b).value.slug)
    ensures WithoutHyphens(PostData(b).value.slug) == Alnums(Lower(b.title.value))
  {
    SlugifyIsSlug(b.title.value);
    SlugKeepsAlnums(b.title.value);
  }

  /** `GET`: every post newest first, or 500 when the database reports an error. */
  method Get(posts: Table<PostRow>, dbFails: bool) returns (resp: PostsResponse)
    ensures resp.Status() == 500 <==> dbFails
    ensures resp.ServerError? ==> resp.error == "Failed to fetch posts"
    ensures !dbFails ==> resp.PostList? && NewestFirstOrder(resp.posts)
                         && multiset(resp.posts) == multiset(posts.rows)
  {
    var r := GetAll(posts.rows, dbFails);
    if r.Err? {
      return ServerError("Failed to fetch posts");
    }
    resp := PostList(r.value);
  }

  /** `POST`: parse the body (None: it is not JSON), build the row, insert it.
      Any failure answers 500 and leaves the table as it was. */
  method Post(posts: Table<PostRow>, body: Option<PostBody>, now: int, dbFails: bool)
    returns (resp: PostsResponse)
    requires posts.Valid()
    modifies posts
    ensures posts.Valid()
    ensures resp.Status() == 500 <==> body.None? || body.value.title.None? || dbFails
    ensures resp.ServerError? ==> resp.error == "Failed to create post"
                                  && posts.rows == old(posts.rows) && posts.nextId == old(posts.nextId)
    ensures resp.PostCreated? ==> (PostData(body.value).Ok? && resp.post.data == PostData(body.value).value
                                   && resp.post.createdAt == now
                                   && posts.rows == old(posts.rows) + [resp.post])
    ensures !resp.PostList?
  {
    if body.None? {
      return ServerError("Failed to create post");
    }
    var row := PostData(body.value);
    if row.Err? {
      return ServerError("Failed to create post");
    }
    var r := Create(posts, row.value, now, dbFails);
    if r.Err? {
      return ServerError("Failed to create post");
    }
    resp := PostCreated(r.value);
  }
}
