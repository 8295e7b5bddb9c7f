/** Slugs of the sample post titles, proved from the word-by-word slug lemma. */
module SeedSlugs {
  import opened Strings
  import opened Slug

  lemma WelcomeWords()
    ensures Join(["Welcome", "to", "ABC", "Company"], ' ') == "Welcome to ABC Company"
    ensures Join(["welcome", "to", "abc", "company"], '-') == "welcome-to-abc-company"
  {
    assert Join(["Welcome", "to", "ABC", "Company"], ' ') == "Welcome to ABC Company";
  }

  lemma WelcomeLower()
    ensures LowerWords(["Welcome", "to", "ABC", "Company"]) == ["welcome", "to", "abc", "company"]
  {
    var ws := ["Welcome", "to", "ABC", "Company"];
    assert Lower(ws[0]) == "welcome";
    assert Lower(ws[1]) == "to";
    assert Lower(ws[2]) == "abc";
    assert Lower(ws[3]) == "company";
  }

  lemma WelcomeJoin()
    ensures Slugify(Join(["Welcome", "to", "ABC", "Company"], ' ')) == Join(LowerWords(["Welcome", "to", "ABC", "Company"]), '-')
  {
    var ws := ["Welcome", "to", "ABC", "Company"];
    assert IsWord(ws[0]) && IsWord(ws[1]) && IsWord(ws[2]) && IsWord(ws[3]);
    SlugOfWords(ws);
  }

  lemma WelcomeSlug()
    ensures Slugify("Welcome to ABC Company") == "welcome-to-abc-company"
  {
    WelcomeWords();
    WelcomeLower();
    WelcomeJoin();
  }

  lemma LaunchWords()
    ensures Join(["New", "Product", "Launch"], ' ') == "New Product Launch"
    ensures Join(["new", "product", "launch"], '-') == "new-product-launch"
  {
    assert Join(["New", "Product", "Launch"], ' ') == "New Product Launch";
  }

  lemma LaunchLower()
    ensures LowerWords(["New", "Product", "Launch"]) == ["new", "product", "launch"]
  {
    var ws := ["New", "Product", "Launch"];
    assert Lower(ws[0]) == "new";
    assert Lower(ws[1]) == "product";
    assert Lower(ws[2]) == "launch";
  }

  lemma LaunchJoin()
    ensures Slugify(Join(["New", "Product", "Launch"], ' ')) == Join(LowerWords(["New", "Product", "Launch"]), '-')
  {
    var ws := ["New", "Product", "Launch"];
    assert IsWord(ws[0]) && IsWord(ws[1]) && IsWord(ws[2]);
    SlugOfWords(ws);
  }

  lemma LaunchSlug()
    ensures Slugify("New Product Launch") == "new-product-launch"
  {
    LaunchWords();
    LaunchLower();
    LaunchJoin();
  }

  lemma ExpansionWords()
    ensures Join(["Company", "Expansion"], ' ') == "Company Expansion"
    ensures Join(["company", "expansion"], '-') == "company-expansion"
  {
    assert Join(["Company", "Expansion"], ' ') == "Company Expansion";
  }

  lemma ExpansionLower()
    ensures LowerWords(["Company", "Expansion"]) == ["company", "expansion"]
  {
    var ws := ["Company", "Expansion"];
    assert Lower(ws[0]) == "company";
    assert Lower(ws[1]) == "expansion";
  }

  lemma ExpansionJoin()
    ensures Slugify(Join(["Company", "Expansion"], ' ')) == Join(LowerWords(["Company", "Expansion"]), '-')
  {
    var ws := ["Company", "Expansion"];
    assert IsWord(ws[0]) && IsWord(ws[1]);
    SlugOfWords(ws);
  }

  lemma ExpansionSlug()
    ensures Slugify("Company Expansion") == "company-expansion"
  {
    ExpansionWords();
    ExpansionLower();
    ExpansionJoin();
  }
}

module SeedDataRoute {
  import opened Wrappers
  import opened Strings
  import opened Slug
  import opened Store
  import opened SupabaseData
  import opened SeedSlugs

  // The long texts of the sample rows, named so that proofs about the rows
  // do not have to carry them.
  const WelcomeSummary :=
    "We are excited to announce the"
    + " launch of our new website and"
    + " services."
  const WelcomeContent :=
    "<p>We are thrilled to welcome"
    + " you to ABC Company. Our team"
    + " has been working hard to"
    + " bring you the best services"
    + " and solutions.</p><p>Stay"
    + " tuned for more updates and"
    + " exciting announcements!</p>"
  const LaunchSummary :=
    "Introducing our latest"
    + " innovation that will"
    + " revolutionize the industry."
  const LaunchContent :=
    "<p>Today marks a significant"
    + " milestone for ABC Company as"
    + " we launch our groundbreaking"
    + " new product.</p><p>This"
    + " innovation represents months"
    + " of research and development,"
    + " and we believe it will"
    + " transform how businesses"
    + " operate.</p>"
  const ExpansionSummary :=
    "ABC Company is expanding to"
    + " new markets and locations."
  const ExpansionContent :=
    "<p>We are pleased to announce"
    + " our expansion into three new"
    + " markets this"
    + " quarter.</p><p>This growth"
    + " reflects our commitment to"
    + " serving more customers and"
    + " creating new"
    + " opportunities.</p>"
  const EngineerDescription :=
    "We are looking for a Senior"
    + " Software Engineer to join our"
    + " growing engineering team. You"
    + " will be responsible for"
    + " designing, developing, and"
    + " maintaining high-quality"
    + " software solutions."
  const EngineerRequirements: seq<string> := [
    "5+ years of software development experience",
    "Proficiency in JavaScript, Python, or Java",
    "Experience with cloud platforms (AWS, GCP, Azure)",
    "Strong problem-solving skills",
    "Bachelor's degree in Computer Science or related field"]
  const ManagerDescription :=
    "Join our product team to help"
    + " shape the future of our"
    + " products. You will work"
    + " closely with engineering,"
    + " design, and business teams to"
    + " deliver exceptional user"
    + " experiences."
  const ManagerRequirements: seq<string> := [
    "3+ years of product management experience",
    "Strong analytical and problem-solving skills",
    "Experience with agile development methodologies",
    "Excellent communication and leadership skills",
    "MBA or relevant degree preferred"]

  const WelcomeTitle := "Welcome to ABC Company"
  const LaunchTitle := "New Product Launch"
  const ExpansionTitle := "Company Expansion"

  const WelcomePost := PostRow(WelcomeTitle, Some(WelcomeSummary), Some(WelcomeContent),
                               None, Some("News"), Some("Admin"), "welcome-to-abc-company")
  const LaunchPost := PostRow(LaunchTitle, Some(LaunchSummary), Some(LaunchContent),
                              None, Some("Updates"), Some("Product Team"), "new-product-launch")
  const ExpansionPost := PostRow(ExpansionTitle, Some(ExpansionSummary), Some(ExpansionContent),
                                 None, Some("Announcements"), Some("CEO"), "company-expansion")
  const SeedPosts: seq<PostRow> := [WelcomePost, LaunchPost, ExpansionPost]

  const SeedGallery: seq<GalleryRow> := [
    GalleryRow("/placeholder.svg?height=400&width=600", "Modern office building", "Our state-of-the-art headquarters"),
    GalleryRow("/placeholder.svg?height=400&width=600", "Team collaboration", "Innovation happens through teamwork"),
    GalleryRow("/placeholder.svg?height=400&width=600", "Technology workspace", "Cutting-edge technology at work")
  ]

  const EngineerJob := JobRow("Senior Software Engineer", "Engineering", "San Francisco, CA", "Full-time",
                              Some("$120,000 - $160,000"), EngineerDescription, EngineerRequirements)
  const ManagerJob := JobRow("Product Manager", "Product", "New York, NY", "Full-time",
                             Some("$100,000 - $140,000"), ManagerDescription, ManagerRequirements)
  const SeedJobs: seq<JobRow> := [EngineerJob, ManagerJob]

  /** What the `select("id").limit(1)` guard query did: answered with the table's
      rows, reported an error (its data is then null), or threw. */
  datatype GuardAnswer = GuardRows | GuardError | GuardThrows

  datatype SeedResponse = AlreadySeeded | Seeded | SeedFailed
  {
    function Status(): nat
    {
      if SeedFailed? then 500 else 200
    }

    function Message(): string
    {
      match this
      case AlreadySeeded => "Data already seeded"
      case Seeded => "Sample data seeded successfully"
      case SeedFailed => "Failed to seed data"
    }
  }

  /** The three hard-coded slugs are the slugs of their titles. */
  lemma SeedSlugsFollowRule()
    ensures forall k :: 0 <= k < |SeedPosts| ==> SeedPosts[k].slug == Slugify(SeedPosts[k].title)
  {
    forall k | 0 <= k < |SeedPosts|
      ensures SeedPosts[k].slug == Slugify(SeedPosts[k].title)
    {
      if k == 0 {
        WelcomeSlug();
      } else if k == 1 {
        LaunchSlug();
      } else {
        ExpansionSlug();
      }
    }
  }

  /** The route. The three batch inserts run side by side and their errors are
      ignored: `postsLand`, `galleryLand` and `jobsLand` say which batches the
      database accepted. */
  method Seed(posts: Table<PostRow>, gallery: Table<GalleryRow>, jobs: Table<JobRow>, now: int,
              guard: GuardAnswer, postsLand: bool, galleryLand: bool, jobsLand: bool)
    returns (resp: SeedResponse)
    requires posts.Valid() && gallery.Valid() && jobs.Valid()
    modifies posts, gallery, jobs
    ensures posts.Valid() && gallery.Valid() && jobs.Valid()
    ensures resp == AlreadySeeded <==> guard == GuardRows && |old(posts.rows)| > 0
    ensures resp == SeedFailed <==> guard == GuardThrows
    ensures resp != Seeded ==> (posts.rows == old(posts.rows) && gallery.rows == old(gallery.rows)
                                && jobs.rows == old(jobs.rows))
    ensures resp == Seeded ==>
      && posts.rows == old(posts.rows) + (if postsLand then Stamped(SeedPosts, old(posts.nextId), now) else [])
      && gallery.rows == old(gallery.rows) + (if galleryLand then Stamped(SeedGallery, old(gallery.nextId), now) else [])
      && jobs.rows == old(jobs.rows) + (if jobsLand then Stamped(SeedJobs, old(jobs.nextId), now) else [])
  {
    if guard == GuardThrows {
      return SeedFailed;
    }
    if guard == GuardRows && |posts.rows| > 0 {
      return AlreadySeeded;
    }
    if postsLand {
      posts.InsertAll(SeedPosts, now);
    }
    if galleryLand {
      gallery.InsertAll(SeedGallery, now);
    }
    if jobsLand {
      jobs.InsertAll(SeedJobs, now);
    }
    resp := Seeded;
  }

  /** Seeding twice. The second run reports "Data already seeded" exactly when
      its guard query answers and a post is stored by then: the first run's
      posts batch landed, or the table had posts before. Whenever the second
      run does not seed, the tables stay as the first run left them. */
  method SeedTwice(posts: Table<PostRow>, gallery: Table<GalleryRow>, jobs: Table<JobRow>,
                   now1: int, now2: int, guard1: GuardAnswer,
                   postsLand: bool, galleryLand: bool, jobsLand: bool,
                   guard2: GuardAnswer, landed2: bool)
    returns (first: SeedResponse, second: SeedResponse)
    requires posts.Valid() && gallery.Valid() && jobs.Valid()
    requires guard1 != GuardThrows
    modifies posts, gallery, jobs
    ensures first != SeedFailed
    ensures second == AlreadySeeded <==> guard2 == GuardRows && (postsLand || |old(posts.rows)| > 0)
    ensures second != Seeded ==>
      var seeded := first == Seeded;
      && posts.rows == old(posts.rows) + (if seeded && postsLand then Stamped(SeedPosts, old(posts.nextId), now1) else [])
      && gallery.rows == old(gallery.rows) + (if seeded && galleryLand then Stamped(SeedGallery, old(gallery.nextId), now1) else [])
      && jobs.rows == old(jobs.rows) + (if seeded && jobsLand then Stamped(SeedJobs, old(jobs.nextId), now1) else [])
  {
    first := Seed(posts, gallery, jobs, now1, guard1, postsLand, galleryLand, jobsLand);
    assert |posts.rows| > 0 <==> postsLand || |old(posts.rows)| > 0;
    second := Seed(posts, gallery, jobs, now2, guard2, landed2, landed2, landed2);
  }
}
