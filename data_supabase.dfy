/** The database-backed data layer: list queries newest first, single-row lookups
    that answer null on any error, and inserts that rethrow. The database itself is
    a `Store.Table`; whether the database reports an error is a parameter. */
module SupabaseData {
  import opened Wrappers
  import opened Seqs
  import opened Slug
  import opened Store

  /** Why a call threw: a JavaScript `TypeError` (a required value was missing)
      or an error reported by the database and rethrown. */
  datatype Thrown = TypeError | DatabaseError

  /** A row of the `posts` table. */
  datatype PostRow = PostRow(
    title: string,
    summary: Option<string>,
    content: Option<string>,
    imageUrl: Option<string>,
    category: Option<string>,
    author: Option<string>,
    slug: string)

  /** The object given to `createPost`: any post fields, possibly including a slug. */
  datatype PostDraft = PostDraft(
    title: Option<string>,
    summary: Option<string>,
    content: Option<string>,
    imageUrl: Option<string>,
    category: Option<string>,
    author: Option<string>,
    slug: Option<string>)

  /** A row of the `jobs` table. */
  datatype JobRow = JobRow(
    title: string,
    department: string,
    location: string,
    jobType: string,
    salary: Option<string>,
    description: string,
    requirements: seq<string>)

  /** A row of the `gallery_images` table. */
  datatype GalleryRow = GalleryRow(url: string, altText: string, caption: string)

  /** `getAllPosts`, `getAllJobs`, `getGalleryImages`, `getContactMessages`,
      `getJobApplications`, `getGeneralApplications`: every row, newest first;
      a database error is rethrown. */
  function GetAll<T>(rows: seq<Record<T>>, dbFails: bool): (r: Result<seq<Record<T>>, Thrown>)
    ensures dbFails <==> r.Err?
    ensures r.Err? ==> r.error == DatabaseError
    ensures r.Ok? ==> NewestFirstOrder(r.value) && multiset(r.value) == multiset(rows)
  {
    if dbFails then Err(DatabaseError) else Ok(NewestFirst(rows))
  }

  /** `getLatestPosts(limit = 3)`: the `limit` newest rows. */
  function GetLatest<T>(rows: seq<Record<T>>, limit: Option<nat>, dbFails: bool): (r: Result<seq<Record<T>>, Thrown>)
    ensures dbFails <==> r.Err?
    ensures r.Ok? ==> var n := limit.GetOr(3);
      && |r.value| == (if n < |rows| then n else |rows|)
      && r.value == NewestFirst(rows)[..|r.value|]
      && NewestFirstOrder(r.value)
      && forall i, j :: 0 <= i < |r.value| <= j < |rows| ==> r.value[i].createdAt >= NewestFirst(rows)[j].createdAt
  {
    if dbFails then Err(DatabaseError)
    else
      var all := NewestFirst(rows);
      var n := limit.GetOr(3);
      assert |all| == |rows| by { assert |multiset(all)| == |multiset(rows)|; }
      Ok(all[..if n < |all| then n else |all|])
  }

  function Matching<T>(rows: seq<Record<T>>, test: T -> bool): seq<Record<T>>
  {
    Filter((r: Record<T>) => test(r.data), rows)
  }

  /** `.eq(column, value).single()` with the error mapped to null: a row comes back
      only when exactly one row matches and the database reports no error. */
  function SingleOrNull<T>(rows: seq<Record<T>>, test: T -> bool, dbFails: bool): (r: Option<Record<T>>)
    ensures r.Some? <==> !dbFails && |Matching(rows, test)| == 1
    ensures r.Some? ==> r.value in rows && test(r.value.data)
  {
    var m := Matching(rows, test);
    if !dbFails && |m| == 1 then Some(m[0]) else None
  }

  /** `getPostBySlug`: the one post with this slug, or null. */
  function GetPostBySlug(rows: seq<Record<PostRow>>, slug: string, dbFails: bool): (r: Option<Record<PostRow>>)
    ensures r.Some? ==> r.value in rows && r.value.data.slug == slug
  {
    SingleOrNull(rows, (p: PostRow) => p.slug == slug, dbFails)
  }

  function IdMatching<T>(rows: seq<Record<T>>, id: nat): seq<Record<T>>
  {
    Filter((r: Record<T>) => r.id == id, rows)
  }

  /** `getJobById`: the job with this id, or null. */
  function GetJobById(rows: seq<Record<JobRow>>, id: nat, dbFails: bool): (r: Option<Record<JobRow>>)
    ensures r.Some? ==> r.value in rows && r.value.id == id
  {
    var m := IdMatching(rows, id);
    if !dbFails && |m| == 1 then Some(m[0]) else None
  }

  lemma {:induction false} IdMatchingOfIncreasing<T>(rows: seq<Record<T>>, id: nat)
    requires forall i, j :: 0 <= i < j < |rows| ==> rows[i].id < rows[j].id
    ensures |IdMatching(rows, id)| == if exists i :: 0 <= i < |rows| && rows[i].id == id then 1 else 0
  {
    if rows != [] {
      IdMatchingOfIncreasing(rows[1..], id);
      if rows[0].id == id {
        assert forall i :: 0 <= i < |rows[1..]| ==> rows[1..][i].id != id by {
          forall i | 0 <= i < |rows[1..]| ensures rows[1..][i].id != id {
            assert rows[1..][i] == rows[i + 1];
          }
        }
      } else {
        assert (exists i :: 0 <= i < |rows| && rows[i].id == id)
          <==> (exists i :: 0 <= i < |rows[1..]| && rows[1..][i].id == id) by {
          forall i | 0 <= i < |rows[1..]| ensures rows[1..][i] == rows[i + 1] { }
          if exists i :: 0 <= i < |rows| && rows[i].id == id {
            var i :| 0 <= i < |rows| && rows[i].id == id;
            assert rows[1..][i - 1] == rows[i];
          }
        }
      }
    }
  }

  /** Because a table hands out increasing ids, `getJobById` finds a job exactly when
      one with that id exists and the database reports no error. */
  lemma JobByIdFindsExisting(t: seq<Record<JobRow>>, nextId: nat, id: nat)
    requires IdsBelow(t, nextId)
    ensures GetJobById(t, id, false).Some? <==> exists i :: 0 <= i < |t| && t[i].id == id
  {
    IdMatchingOfIncreasing(t, id);
  }

  /** The row `createPost` inserts: every supplied field, with `slug` replaced by the
      slug of the title; a missing title throws. */
  function CreatePostRow(d: PostDraft): (r: Result<PostRow, Thrown>)
    ensures d.title.None? <==> r.Err?
    ensures r.Ok? ==> r.value.title == d.title.value && r.value.slug == Slugify(d.title.value)
    ensures r.Ok? ==> (r.value.summary == d.summary && r.value.content == d.content
                       && r.value.imageUrl == d.imageUrl && r.value.category == d.category
                       && r.value.author == d.author)
  {
    match d.title
    case None => Err(TypeError)
    case Some(title) =>
      Ok(PostRow(title, d.summary, d.content, d.imageUrl, d.category, d.author, Slugify(title)))
  }

  /** The caller's slug never reaches the table: two drafts that differ only in
      their slug are stored identically. */
  lemma CreatePostIgnoresSuppliedSlug(d: PostDraft, other: Option<string>)
    ensures CreatePostRow(d) == CreatePostRow(d.(slug := other))
  {
  }

  /** `createPost`: insert the row, rethrowing a missing title or a database error. */
  method CreatePost(posts: Table<PostRow>, d: PostDraft, now: int, dbFails: bool)
    returns (r: Result<Record<PostRow>, Thrown>)
    requires posts.Valid()
    modifies posts
    ensures posts.Valid()
    ensures r.Err? <==> d.title.None? || dbFails
    ensures r.Err? ==> posts.rows == old(posts.rows) && posts.nextId == old(posts.nextId)
    ensures r.Ok? ==> (CreatePostRow(d).Ok? && r.value.data == CreatePostRow(d).value
                       && r.value.createdAt == now && posts.rows == old(posts.rows) + [r.value])
  {
    var row := CreatePostRow(d);
    if row.Err? {
      return Err(row.error);
    }
    r := Create(posts, row.value, now, dbFails);
  }

  /** `createJob`, `createContactMessage`, `createJobApplication`,
      `createGeneralApplication`: insert the object as given, rethrowing a
      database error. */
  method Create<T>(t: Table<T>, data: T, now: int, dbFails: bool) returns (r: Result<Record<T>, Thrown>)
    requires t.Valid()
    modifies t
    ensures t.Valid()
    ensures r.Err? <==> dbFails
    ensures r.Err? ==> r.error == DatabaseError && t.rows == old(t.rows) && t.nextId == old(t.nextId)
    ensures r.Ok? ==> r.value == Record(old(t.nextId), now, data) && t.rows == old(t.rows) + [r.value]
  {
    if dbFails {
      return Err(DatabaseError);
    }
    var rec := t.Insert(data, now);
    r := Ok(rec);
  }
}
