/** The JSON-file data layer under `data/`: each reader returns the parsed list,
    with fixed fallbacks when the file is missing or cannot be read. */
module FileData {
  import opened Wrappers
  import opened Seqs

  datatype Post = Post(id: string, title: string, summary: string, content: string, image: Option<string>,
                       date: string, slug: string, category: string, author: string)

  datatype Job = Job(id: string, title: string, department: string, location: string, jobType: string,
                     salary: Option<string>, description: string, requirements: seq<string>, posted: string)

  datatype GalleryImage = GalleryImage(id: string, url: string, alt: string, caption: Option<string>)

  /** The outcome of reading and parsing one data file. */
  datatype FileRead<T> = Present(items: seq<T>) | Missing | Unreadable

  /** The common reader: the parsed list, or `[]` when the file is missing or
      reading or parsing throws. */
  function ReadList<T>(file: FileRead<T>): (r: seq<T>)
    ensures file.Present? ==> r == file.items
    ensures !file.Present? ==> r == []
  {
    if file.Present? then file.items else []
  }

  function GetAllPosts(file: FileRead<Post>): seq<Post>
  {
    ReadList(file)
  }

  function GetNotices<N>(file: FileRead<N>): seq<N>
  {
    ReadList(file)
  }

  function GetJobListings(file: FileRead<Job>): seq<Job>
  {
    ReadList(file)
  }

  function GetAllJobs(file: FileRead<Job>): seq<Job>
  {
    GetJobListings(file)
  }

  const Placeholder := "/placeholder.svg?height=400&width=600"

  const DefaultGallery: seq<GalleryImage> := [
    GalleryImage("1", Placeholder, "Company building", Some("Our modern headquarters")),
    GalleryImage("2", Placeholder, "Team meeting", Some("Collaborative workspace")),
    GalleryImage("3", Placeholder, "Office interior", Some("Innovation center"))]

  /** Unlike the other readers, a missing gallery file yields three placeholder images. */
  function GetGalleryImages(file: FileRead<GalleryImage>): (r: seq<GalleryImage>)
    ensures file.Missing? ==> |r| == 3 && r[0].id == "1" && r[1].id == "2" && r[2].id == "3"
    ensures file.Unreadable? ==> r == []
    ensures file.Present? ==> r == file.items
  {
    match file
    case Present(items) => items
    case Missing => DefaultGallery
    case Unreadable => []
  }

  /** `posts.slice(0, limit)`, `limit` defaulting to 3. */
  function GetLatestPosts(file: FileRead<Post>, limit: Option<int>): (r: seq<Post>)
  {
    SliceTo(GetAllPosts(file), limit.GetOr(3))
  }

  function GetPostBySlug(file: FileRead<Post>, slug: string): (r: Option<Post>)
  {
    Find((p: Post) => p.slug == slug, GetAllPosts(file))
  }

  function GetJobById(file: FileRead<Job>, id: string): (r: Option<Job>)
  {
    Find((j: Job) => j.id == id, GetAllJobs(file))
  }

  /** A missing or unreadable posts, notices or jobs file reads as empty, so
      nothing is found in it. */
  lemma MissingFilesAreEmpty<N>(posts: FileRead<Post>, notices: FileRead<N>, jobs: FileRead<Job>,
                                slug: string, id: string, limit: Option<int>)
    requires !posts.Present? && !notices.Present? && !jobs.Present?
    ensures GetAllPosts(posts) == [] && GetNotices(notices) == [] && GetJobListings(jobs) == []
    ensures GetLatestPosts(posts, limit) == [] && GetPostBySlug(posts, slug).None? && GetJobById(jobs, id).None?
  {
  }

  /** The latest posts are the first min(limit, n) posts (three by default),
      in file order. */
  lemma LatestPostsArePrefix(file: FileRead<Post>, limit: Option<int>)
    requires limit.Some? ==> limit.value >= 0
    ensures var all := GetAllPosts(file);
      var n := limit.GetOr(3);
      var r := GetLatestPosts(file, limit);
      && |r| == (if n < |all| then n else |all|)
      && r == all[..|r|]
  {
  }

  /** The post found for a slug is the first post with exactly that slug; none
      is found iff no post has it. */
  lemma PostBySlugIsFirstMatch(file: FileRead<Post>, slug: string)
    ensures var all := GetAllPosts(file);
      var r := GetPostBySlug(file, slug);
      && (r.None? <==> forall i :: 0 <= i < |all| ==> all[i].slug != slug)
      && (r.Some? ==> exists i :: 0 <= i < |all| && all[i] == r.value && r.value.slug == slug
                                   && forall j :: 0 <= j < i ==> all[j].slug != slug)
  {
    var all := GetAllPosts(file);
    var test := (p: Post) => p.slug == slug;
    var r := Find(test, all);
    if r.Some? {
      var i :| 0 <= i < |all| && all[i] == r.value && test(all[i]) && forall j :: 0 <= j < i ==> !test(all[j]);
      assert r.value.slug == slug;
    } else {
      assert forall i :: 0 <= i < |all| ==> !test(all[i]);
    }
  }

  /** Jobs are looked up in exactly the job listings, and the job found for an
      id is the first with exactly that id. */
  lemma JobByIdIsFirstMatch(file: FileRead<Job>, id: string)
    ensures GetAllJobs(file) == GetJobListings(file)
    ensures var all := GetJobListings(file);
      var r := GetJobById(file, id);
      && (r.None? <==> forall i :: 0 <= i < |all| ==> all[i].id != id)
      && (r.Some? ==> exists i :: 0 <= i < |all| && all[i] == r.value && r.value.id == id
                                   && forall j :: 0 <= j < i ==> all[j].id != id)
  {
    var all := GetJobListings(file);
    var test := (j: Job) => j.id == id;
    var r := Find(test, all);
    if r.Some? {
      var i :| 0 <= i < |all| && all[i] == r.value && test(all[i]) && forall j :: 0 <= j < i ==> !test(all[j]);
      assert r.value.id == id;
    } else {
      assert forall i :: 0 <= i < |all| ==> !test(all[i]);
    }
  }
}
