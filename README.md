# ABC Company site: verified model of its rules

This project models, in Dafny, the rule-bearing core of a small Next.js
company website (news posts, job listings, a gallery, job applications, a
contact form, and an admin area). It covers:

- the post slug rule;
- upload naming and validation (MIME allow-lists, size limits, the blob upload
  route, the local admin upload route, the admin file picker);
- formatting of video durations;
- the list queries over JSON files and over database tables (newest first,
  latest-N, find by slug or id);
- the media page filter and the search bar's query-string building;
- the admin job editor's requirements text and its requests;
- the job card preview and the gallery carousel;
- the required-field guards of the application and contact routes;
- the admin login and the session check;
- the idempotent seeding route.

Each database table is a `Store.Table` object whose rows a route appends to.
The blob store, the uploads directory and the browser's cookie store are small
classes whose methods record what was written. Everything outside the program
is a parameter: whether a database call or a write fails, the timestamp
(`Date.now()`), the hosted URL of a blob, and whether the app runs in
production.

Module layout, one module per source file plus shared helpers:

| module | file | models |
|---|---|---|
| Wrappers, Strings, Decimal, Seqs | `wrappers.dfy`, `strings.dfy`, `decimal.dfy`, `seqs.dfy` | JavaScript `undefined`/truthiness, ASCII lowercasing, `split`/`join`, integer printing and padding, `filter`/`find`/`slice` |
| Slug | `slug.dfy` | the slug expression of `app/api/admin/posts/route.ts` and `lib/data-supabase.ts` |
| Store, SupabaseData | `store.dfy`, `data_supabase.dfy` | tables and `lib/data-supabase.ts` |
| AdminPostsRoute | `admin_posts_route.dfy` | `app/api/admin/posts/route.ts` |
| SeedSlugs, SeedDataRoute | `seed_data_route.dfy` | `app/api/seed-data/route.ts` |
| Storage | `storage.dfy` | `lib/storage.ts` |
| UploadBlobRoute | `upload_blob_route.dfy` | `app/api/upload-blob/route.ts` |
| AdminUploadRoute | `admin_upload_route.dfy` | `app/api/admin/upload/route.ts` |
| FileUpload | `file_upload.dfy` | `components/admin/FileUpload.tsx` |
| FileData | `file_data.dfy` | `lib/data.ts` |
| MediaPage | `media_page.dfy` | `app/media/page.tsx` |
| SearchFilter | `search_filter.dfy` | `components/SearchFilter.tsx` |
| JobManager | `job_manager.dfy` | `components/admin/JobManager.tsx` |
| JobCard | `job_card.dfy` | `components/JobCard.tsx` |
| Gallery | `gallery.dfy` | `components/Gallery.tsx` |
| JobApplicationsRoute | `job_applications_route.dfy` | `app/api/job-applications/route.ts` |
| GeneralApplicationsRoute | `general_applications_route.dfy` | `app/api/general-applications/route.ts` |
| ContactRoute | `contact_route.dfy` | `app/api/contact/route.ts` |
| LoginRoute, Auth | `login_route.dfy`, `auth.dfy` | `app/api/admin/login/route.ts`, `lib/auth.ts` |

Behaviour worth knowing that the model reproduces as written:

- A wildcard entry `b/*` admits any MIME type that merely starts with `b`, so
  `image/*` admits `imagery/x` (`Storage.ImageWildcardAdmitsImagery`).
- Job CVs are uploaded through `/api/admin/upload` with type `cv`, so they never
  meet the CV allow-list of `/api/upload-blob`, which checks only type `cvs`.
- The post editor sends `image`, but the posts route reads `image_url`.

These two mismatches belong to the calling components, which are not part of
this model. They are recorded here and not fixed.

## Model

| member | source | states |
|---|---|---|
| Slug.Slugify | app/api/admin/posts/route.ts:28-31 | the slug expression: lowercase, replace each run of non-`[a-z0-9]` by `-`, strip one edge hyphen at each end; its properties are the Slug lemmas below |
| Slug.ReplaceRunsShape | app/api/admin/posts/route.ts:30 | replacing each run of non-`[a-z0-9]` characters by `-` leaves only slug characters and never two hyphens in a row; empty iff the input is empty |
| Slug.ReplaceRunsKeepsAlnums | app/api/admin/posts/route.ts:30 | removing the hyphens from the replaced text gives exactly its letters and digits, in order |
| Slug.TrimHyphensKeepsRest | app/api/admin/posts/route.ts:31 | stripping an edge hyphen removes nothing but hyphens |
| Slug.SlugifyIsSlug | app/api/admin/posts/route.ts:28-31 | every slug has only `a-z`, `0-9`, `-`, no `--`, and no leading or trailing `-` |
| Slug.SlugKeepsAlnums | app/api/admin/posts/route.ts:29-30 | the slug without hyphens is exactly the letters and digits of the lowercased title |
| Slug.SlugEmptyIffNoAlnum | app/api/admin/posts/route.ts:30-31 | the slug is empty iff the lowercased title has no ASCII letter or digit |
| Slug.SlugOfSlug | app/api/admin/posts/route.ts:28-31 | a well-formed slug is its own slug |
| Slug.SlugifyIdempotent | app/api/admin/posts/route.ts:28-31 | applying the slug rule twice gives the same as applying it once |
| Slug.SlugOfWords | app/api/admin/posts/route.ts:28-31 | a title of space-separated words made of letters and digits slugs to its lowercased words joined by `-` |
| AdminPostsRoute.PostData | app/api/admin/posts/route.ts:19-31 | the row stores title, summary, content, image_url, category and author unchanged, and the slug is the slug of the title; a missing title throws |
| AdminPostsRoute.RouteAgreesWithCreatePost | lib/data-supabase.ts:29-39 | the posts route and `createPost` build the same row from the same fields |
| AdminPostsRoute.CreatedSlugIsWellFormed | app/api/admin/posts/route.ts:28-31 | the slug the route stores is well formed and keeps the title's letters and digits |
| AdminPostsRoute.Get | app/api/admin/posts/route.ts:4-15 | answers every post newest first, or 500 "Failed to fetch posts" iff the database fails |
| AdminPostsRoute.Post | app/api/admin/posts/route.ts:17-43 | a created post is the appended row built by `PostData`; a bad body, a missing title or a database error answers 500 and leaves the table unchanged |
| SupabaseData.GetAll | lib/data-supabase.ts:4-9 | a list query returns a permutation of the rows, newest first, or throws iff the database fails |
| SupabaseData.GetLatest | lib/data-supabase.ts:11-20 | the latest-N query returns at most `limit` rows (3 by default), the newest ones, newest first |
| SupabaseData.SingleOrNull | lib/data-supabase.ts:22-27 | `.single()` yields a row iff exactly one row matches and the database does not fail, and yields null otherwise |
| SupabaseData.GetPostBySlug | lib/data-supabase.ts:22-27 | a found post is a stored row with that slug; otherwise null, never an error |
| SupabaseData.GetJobById | lib/data-supabase.ts:56-61 | a found job is a stored row with that id; otherwise null, never an error |
| SupabaseData.JobByIdFindsExisting | lib/data-supabase.ts:56-61 | with ids unique, a job is found iff a row has that id |
| SupabaseData.IdMatchingOfIncreasing | lib/data-supabase.ts:57 | with increasing ids, at most one row matches an id, and exactly one iff some row has it |
| SupabaseData.CreatePostRow | lib/data-supabase.ts:29-39 | `createPost` keeps every supplied field and overrides the slug with the slug of the title |
| SupabaseData.CreatePostIgnoresSuppliedSlug | lib/data-supabase.ts:33-38 | a slug supplied by the caller has no effect on the stored row |
| SupabaseData.CreatePost | lib/data-supabase.ts:29-46 | appends exactly the row `CreatePostRow` builds; on an error the table is unchanged and the error propagates |
| SupabaseData.Create | lib/data-supabase.ts:63-68 | an insert appends the object unchanged with the next id, or leaves the table unchanged and throws |
| Store.NewestFirst | lib/data-supabase.ts:5 | `order("created_at", desc)` is a permutation of the rows with no row older than a later one |
| Store.Table.Insert | lib/data-supabase.ts:64 | `insert([row]).select().single()` appends one row with the next id and returns it |
| Store.Table.InsertAll | app/api/seed-data/route.ts:101-103 | a batch insert appends the batch in order with consecutive ids |
| SeedSlugs.WelcomeSlug | app/api/seed-data/route.ts:16-22 | "Welcome to ABC Company" slugs to "welcome-to-abc-company" |
| SeedSlugs.LaunchSlug | app/api/seed-data/route.ts:25-31 | "New Product Launch" slugs to "new-product-launch" |
| SeedSlugs.ExpansionSlug | app/api/seed-data/route.ts:34-40 | "Company Expansion" slugs to "company-expansion" |
| SeedDataRoute.SeedSlugsFollowRule | app/api/seed-data/route.ts:14-43 | every hard-coded seed slug is the slug rule applied to its title |
| SeedDataRoute.Seed | app/api/seed-data/route.ts:4-111 | answers "Data already seeded" and writes nothing iff a post exists; otherwise appends the 3 posts, 3 images and 2 jobs (each batch only if its insert lands); a thrown error answers 500 "Failed to seed data" |
| SeedDataRoute.SeedTwice | app/api/seed-data/route.ts:7-104 | after a first run that did not throw, the second run answers "Data already seeded" iff its guard query answers and a post is stored by then (the first posts batch landed or posts existed before); whenever the second run does not seed, all three tables stay exactly as the first run left them |
| Storage.ValidateFileType | lib/storage.ts:23-31 | a file passes iff some allow-list entry admits its MIME type |
| Storage.EntryAdmits | lib/storage.ts:25-29 | one allow-list entry: with `*`, a prefix test on the text before the first `/`; without, equality (proved by ExactEntry and WildcardEntry) |
| Storage.ExactEntry | lib/storage.ts:29 | an entry without `*` admits exactly its own MIME type |
| Storage.WildcardEntry | lib/storage.ts:25-27 | an entry `b/*` admits exactly the MIME types that start with `b` |
| Storage.ImageWildcardAdmitsImagery | lib/storage.ts:26-27 | `image/*` admits `imagery/x`, since only the text before `/` is compared |
| Storage.ValidateFileSize | lib/storage.ts:34-37 | a size passes iff it is at most maxSizeMB·1048576 bytes (boundary proved by FileSizeBoundary) |
| Storage.FileSizeBoundary | lib/storage.ts:34-37 | a size of exactly maxSizeMB·1048576 bytes passes and one more byte fails; a larger ceiling admits at least as much |
| Storage.Sanitize | lib/storage.ts:42 | the cleaned name has the same length as the original |
| Storage.SanitizeCharwise | lib/storage.ts:42 | each character in `[a-zA-Z0-9.-]` is kept and every other becomes `_` |
| Storage.SanitizeIdempotent | lib/storage.ts:42 | a name of allowed characters is unchanged, so cleaning twice equals cleaning once |
| Storage.UniqueFilename | lib/storage.ts:40-44 | `prefix_timestamp_clean` for a non-empty prefix, otherwise `timestamp_clean` (proved by UniqueFilenamePrefix and UniqueFilenameRoundTrip) |
| Storage.UniqueFilenamePrefix | lib/storage.ts:43 | with a non-empty prefix the name is `prefix_timestamp_clean`; an absent or empty prefix gives `timestamp_clean` |
| Storage.UniqueFilenameRoundTrip | lib/storage.ts:40-44 | the timestamp and the cleaned name can be read back from an unprefixed unique name |
| Storage.FormatDuration | lib/storage.ts:87-96 | `h:mm:ss` when there is a whole hour, otherwise `m:ss` (proved by FormatDurationShape and FormatDurationRoundTrip) |
| Storage.FormatDurationShape | lib/storage.ts:92-95 | the text has three `:` fields iff seconds ≥ 3600, otherwise two; secs always two digits and minutes two digits only after hours |
| Storage.FormatDurationRoundTrip | lib/storage.ts:87-96 | reading the formatted fields back gives the number of seconds |
| UploadBlobRoute.UploadType | app/api/upload-blob/route.ts:9 | the type is the supplied one when non-empty, otherwise "general" |
| UploadBlobRoute.MaxSize | app/api/upload-blob/route.ts:24 | 50 MiB for a `video/` MIME type, 10 MiB otherwise (proved by SizeCeiling) |
| UploadBlobRoute.CvAccepted | app/api/upload-blob/route.ts:36-45 | one of the three document MIME types, or a lowercased name ending in `.pdf`, `.doc` or `.docx` (proved by CvRule and CvByExtension) |
| UploadBlobRoute.Rejection | app/api/upload-blob/route.ts:11-55 | the checks before the store write, in the source's order: missing file, size ceiling, CV allow-list (proved by MissingFileRejected, SizeCeiling and CvRule) |
| UploadBlobRoute.StoredName | app/api/upload-blob/route.ts:58 | the unique name with the upload type as its prefix (proved by StoredNamePrefix) |
| UploadBlobRoute.MissingFileRejected | app/api/upload-blob/route.ts:11-13 | an absent or empty file field answers 400 "No file provided" |
| UploadBlobRoute.SizeCeiling | app/api/upload-blob/route.ts:23-32 | the ceiling is 50 MiB for `video/` types and 10 MiB otherwise; a larger file answers 400 with that ceiling, one of exactly the ceiling passes |
| UploadBlobRoute.CvRule | app/api/upload-blob/route.ts:34-55 | for type "cvs" a file within the ceiling passes iff its MIME is one of the three document types or its lowercased name ends in `.pdf`, `.doc` or `.docx`; other types have no such check |
| UploadBlobRoute.CvByExtension | app/api/upload-blob/route.ts:42-45 | a name ending in `.pdf` in any case is accepted as a CV whatever its MIME type |
| UploadBlobRoute.StoredNamePrefix | app/api/upload-blob/route.ts:58 | the stored name starts with the type and `_` ("general_" when no type is given) |
| UploadBlobRoute.Post | app/api/upload-blob/route.ts:5-80 | every rejection answers before the blob store is written; an accepted file is stored once under its unique name and described in the response; a failed put answers 500 "Upload failed" |
| UploadBlobRoute.BlobStore.Put | app/api/upload-blob/route.ts:61-63 | a put records the pathname and the file |
| AdminUploadRoute.Post | app/api/admin/upload/route.ts:5-50 | a missing file answers 400; otherwise the file is written with no size or type check under `timestamp_clean` in the type's directory and the response carries its URL and name; a missing type or a failed write answers 500 and writes nothing |
| AdminUploadRoute.UploadsDir.Write | app/api/admin/upload/route.ts:36 | writing records the file under its directory and name |
| AdminUploadRoute.SavedNameIsUnprefixedUniqueName | app/api/admin/upload/route.ts:28-30 | the saved name is the timestamp, `_`, then the cleaned name, so its length is the timestamp's plus one plus the original name's |
| AdminUploadRoute.SanitizedHasNoSlash | app/api/admin/upload/route.ts:29 | the cleaned name contains no `/` |
| AdminUploadRoute.SavedName | app/api/admin/upload/route.ts:28-30 | `timestamp_clean`, the unprefixed unique name (proved by SavedNameIsUnprefixedUniqueName) |
| AdminUploadRoute.PublicUrl | app/api/admin/upload/route.ts:39 | `/uploads/<type>/<filename>` with the type verbatim (proved by PublicUrlSegments) |
| AdminUploadRoute.PublicUrlSegments | app/api/admin/upload/route.ts:39 | the URL splits on `/` into `""`, `uploads`, the type verbatim and the file name |
| FileUpload.Picker.constructor | components/admin/FileUpload.tsx:17-26 | `maxSize` defaults to 5; nothing is dragged or selected; the preview starts as `currentFile` when it is non-empty |
| FileUpload.Picker.HandleDrag | components/admin/FileUpload.tsx:29-37 | dragenter and dragover set the highlight, dragleave clears it, any other event leaves it |
| FileUpload.Picker.HandleFileSelect | components/admin/FileUpload.tsx:49-69 | a file over the ceiling only raises the alert; one within it becomes the selection and is handed on, and a non-image clears the preview |
| FileUpload.Picker.PreviewLoaded | components/admin/FileUpload.tsx:62-64 | the reader's data URL becomes the preview |
| FileUpload.Picker.HandleDrop | components/admin/FileUpload.tsx:39-47 | a drop clears the highlight and sends only the first dropped file through the size check: a file within the ceiling is selected and handed on and clears the preview unless it is an image; an oversize file only raises the alert; no file changes nothing |
| FileUpload.Picker.HandleInputChange | components/admin/FileUpload.tsx:71-75 | the first chosen file goes through the size check: a file within the ceiling is selected and handed on and clears the preview unless it is an image; an oversize file only raises the alert; no file changes nothing |
| FileUpload.Picker.ClearFile | components/admin/FileUpload.tsx:77-83 | the selection and the preview are both cleared |
| FileData.ReadList | lib/data.ts:6-20 | a present file yields its list; a missing or unreadable file yields `[]` |
| FileData.GetGalleryImages | lib/data.ts:48-81 | a missing gallery file yields the three fixed images with ids "1", "2", "3"; an unreadable one yields `[]` |
| FileData.GetAllPosts | lib/data.ts:6-20 | the posts file read with ReadList: its list, or `[]` when missing or unreadable |
| FileData.GetNotices | lib/data.ts:32-46 | the notices file read the same way |
| FileData.GetJobListings | lib/data.ts:83-97 | the jobs file read the same way |
| FileData.GetAllJobs | lib/data.ts:99-101 | the job listings themselves (proved equal by JobByIdIsFirstMatch) |
| FileData.GetLatestPosts | lib/data.ts:22-25 | `slice(0, limit)` of the posts, 3 by default (proved by LatestPostsArePrefix) |
| FileData.GetPostBySlug | lib/data.ts:27-30 | the first post with that slug (proved by PostBySlugIsFirstMatch) |
| FileData.GetJobById | lib/data.ts:103-106 | the first job with that id (proved by JobByIdIsFirstMatch) |
| FileData.MissingFilesAreEmpty | lib/data.ts:6-97 | missing or unreadable posts, notices and jobs files read as empty, so no latest post and no lookup result exist |
| FileData.LatestPostsArePrefix | lib/data.ts:22-25 | the latest posts are the first min(limit, n) posts, 3 by default |
| FileData.PostBySlugIsFirstMatch | lib/data.ts:27-30 | the post found is the first with exactly that slug, and none is found iff no post has it |
| FileData.JobByIdIsFirstMatch | lib/data.ts:99-106 | `getAllJobs` is `getJobListings`; the job found is the first with exactly that id, and none iff no job has it |
| MediaPage.FilterPosts | app/media/page.tsx:19-28 | the filter never returns more posts than it is given |
| MediaPage.MatchesSearch | app/media/page.tsx:20-23 | no search, or the lowercased search occurs in the lowercased title or summary |
| MediaPage.MatchesCategory | app/media/page.tsx:25 | no category, or exactly the post's category |
| MediaPage.Shown | app/media/page.tsx:27 | both filters hold (proved by ShownIff) |
| MediaPage.FilteredIsSubsequence | app/media/page.tsx:19 | the result is an order-preserving subsequence of the posts |
| MediaPage.NoFiltersShowAll | app/media/page.tsx:21-25 | with no search and no category every post is shown |
| MediaPage.ShownIff | app/media/page.tsx:20-27 | a post is shown iff the lowercased search occurs in its lowercased title or summary and its category equals the one given |
| MediaPage.CategoryIsExact | app/media/page.tsx:25 | with a category given, every shown post has exactly that category |
| MediaPage.FilterIdempotent | app/media/page.tsx:19-28 | filtering the filtered posts again changes nothing |
| MediaPage.FiltersCommute | app/media/page.tsx:27 | filtering by search then category, or category then search, equals filtering by both |
| SearchFilter.FormEncode | components/SearchFilter.tsx:24 | `application/x-www-form-urlencoded` serialisation of one value (proved by FormEncodeAlphabet and DecodeEncodeAscii) |
| SearchFilter.FormEncodeAlphabet | components/SearchFilter.tsx:24 | an encoded value contains only unreserved characters, `+` and `%XX`, so never `&` or `=` |
| SearchFilter.DecodeEncodeAscii | components/SearchFilter.tsx:24 | decoding an encoded ASCII value gives the value back |
| SearchFilter.QueryString | components/SearchFilter.tsx:24 | `params.toString()`: encoded `name=value` pairs joined by `&` (proved by QueryRoundTrip) |
| SearchFilter.QueryRoundTrip | components/SearchFilter.tsx:19-24 | parsing a built query string gives back its parameters in order |
| SearchFilter.BuildParams | components/SearchFilter.tsx:19-22 | `search` is set iff the search text is non-empty, `category` iff the category is non-empty and not "All Categories", each to its own text |
| SearchFilter.Target | components/SearchFilter.tsx:24 | `/media?` followed by the query string of the built parameters (proved by TargetReadsBack) |
| SearchFilter.TargetReadsBack | components/SearchFilter.tsx:24 | navigation goes to `/media?` followed by a query that parses back to the built parameters |
| SearchFilter.SearchBar.constructor | components/SearchFilter.tsx:12-13 | the search text and category start as the URL's, or "" |
| SearchFilter.SearchBar.SetSearch | components/SearchFilter.tsx:46 | typing sets the search text only and navigates nowhere |
| SearchFilter.SearchBar.HandleSearch | components/SearchFilter.tsx:17-25 | pushes the target built from the current search and category |
| SearchFilter.SearchBar.HandleCategoryChange | components/SearchFilter.tsx:27-35 | stores the new category and pushes the target built from it, not from the old one |
| JobManager.Requirements | components/admin/JobManager.tsx:61 | the lines of the text box with blank ones dropped (proved by RequirementsAreNonBlankLines) |
| JobManager.RequirementsAreNonBlankLines | components/admin/JobManager.tsx:61 | the submitted requirements are the non-blank lines, untrimmed and in order, and no more than the lines |
| JobManager.RequirementsRoundTrip | components/admin/JobManager.tsx:61-88 | joining a list with newlines and submitting gives it back when every entry is non-blank and has no newline |
| JobManager.FormFromJob | components/admin/JobManager.tsx:79-91 | a missing or empty salary shows as "" |
| JobManager.Payload | components/admin/JobManager.tsx:59-62 | the text fields are sent unchanged and every sent requirement is non-blank and has no newline |
| JobManager.SubmitTarget | components/admin/JobManager.tsx:56-57 | PUT `/api/admin/jobs/<id>` while editing, otherwise POST `/api/admin/jobs` |
| JobManager.EditSubmitRoundTrip | components/admin/JobManager.tsx:56-91 | editing a job and submitting it unchanged sends its own fields back to its own URL |
| JobManager.Editor.constructor | components/admin/JobManager.tsx:26-36 | the editor starts closed, editing nothing, with the default form (type "Full-time") |
| JobManager.Editor.HandleEdit | components/admin/JobManager.tsx:79-91 | the form holds the job's fields, the job becomes the one edited, and the form opens |
| JobManager.Editor.ResetForm | components/admin/JobManager.tsx:104-116 | the form returns to its defaults (type "Full-time", all else empty) and no job is edited |
| JobManager.Editor.OpenNew | components/admin/JobManager.tsx:122 | the New Job button only opens the form |
| JobManager.Editor.HandleSubmit | components/admin/JobManager.tsx:53-77 | sends one request built from the form to the submit target, and resets the form only on an OK response |
| JobCard.Card | components/JobCard.tsx:43-64 | the first min(3, n) requirements are listed in order; "+N more" appears iff n > 3, with shown + N = n; the salary row appears iff the salary is non-empty |
| JobCard.CardAccountsForAll | components/JobCard.tsx:56-64 | the listed requirements followed by the ones counted are all of them |
| Gallery.NextIndex | components/Gallery.tsx:22-24 | the next index stays in range and wraps n−1 to 0 |
| Gallery.PrevIndex | components/Gallery.tsx:26-28 | the previous index stays in range and wraps 0 to n−1 |
| Gallery.NextPrevInverse | components/Gallery.tsx:22-28 | next and previous undo each other |
| Gallery.AdvanceWithinLap | components/Gallery.tsx:22-24 | k ≤ n presses of next move the index k places forward, wrapping once |
| Gallery.FullCycle | components/Gallery.tsx:22-24 | n presses of next return to the starting image |
| Gallery.ImageSrc | components/Gallery.tsx:45 | an empty url shows the placeholder |
| Gallery.CaptionBox | components/Gallery.tsx:78-84 | the caption box appears iff the caption is non-empty |
| Gallery.Rendered | components/Gallery.tsx:30-84 | nothing is rendered iff there are no images; an index in range shows that image (placeholder for an empty url, alt "Gallery image" for an empty alt, its caption box); an index past the end shows the placeholder, alt "Gallery image" and no caption |
| Gallery.Carousel.constructor | components/Gallery.tsx:19-20 | the index starts at 0 |
| Gallery.Carousel.NextSlide | components/Gallery.tsx:22-24 | the index becomes the next index |
| Gallery.Carousel.PrevSlide | components/Gallery.tsx:26-28 | the index becomes the previous index |
| Gallery.Carousel.Select | components/Gallery.tsx:92-105 | clicking dot or thumbnail k makes k the index |
| Gallery.Carousel.OpenFullscreen | components/Gallery.tsx:56 | the fullscreen button sets fullscreen and keeps the index |
| JobApplicationsRoute.Row | app/api/job-applications/route.ts:17-31 | the stored status is "pending" whatever the input |
| JobApplicationsRoute.RowKeepsEveryField | app/api/job-applications/route.ts:19-29 | every field is copied unchanged into its snake_case column: the body reads back from the row |
| JobApplicationsRoute.MissingRequired | app/api/job-applications/route.ts:9-11 | some required field is absent or empty (spelled out by RequiredFieldsGuard) |
| JobApplicationsRoute.RequiredFieldsGuard | app/api/job-applications/route.ts:9-13 | an application is incomplete iff first name, last name, email, phone, cover letter, job id or CV URL is absent or empty; the job title plays no part |
| JobApplicationsRoute.Post | app/api/job-applications/route.ts:4-47 | an incomplete application answers 400 "Missing required fields" and inserts nothing; an accepted one is appended as its row and its id returned; a bad body or a database error answers 500 "Failed to submit application" |
| JobApplicationsRoute.Get | app/api/job-applications/route.ts:49-63 | lists every application newest first, or answers 500 iff the database fails |
| GeneralApplicationsRoute.Row | app/api/general-applications/route.ts:17-32 | the stored status is "pending" |
| GeneralApplicationsRoute.RowKeepsEveryField | app/api/general-applications/route.ts:19-30 | every field, optional ones included, is copied unchanged into its snake_case column |
| GeneralApplicationsRoute.MissingRequired | app/api/general-applications/route.ts:9-11 | some required field is absent or empty (spelled out by RequiredFieldsGuard) |
| GeneralApplicationsRoute.RequiredFieldsGuard | app/api/general-applications/route.ts:9-13 | a submission is incomplete iff first name, last name, email, phone or CV URL is absent or empty; optional fields play no part |
| GeneralApplicationsRoute.Post | app/api/general-applications/route.ts:4-47 | an incomplete submission answers 400 and inserts nothing; an accepted one is appended as its row and its id returned; a bad body or a database error answers 500 "Failed to submit resume" |
| GeneralApplicationsRoute.Get | app/api/general-applications/route.ts:49-63 | lists every submission newest first, or answers 500 iff the database fails |
| ContactRoute.MissingRequired | app/api/contact/route.ts:9-10 | some required field is absent or empty (spelled out by RequiredFieldsGuard) |
| ContactRoute.RequiredFieldsGuard | app/api/contact/route.ts:9-12 | a message is incomplete iff name, email, subject or message is absent or empty; other fields play no part |
| ContactRoute.Post | app/api/contact/route.ts:4-19 | an incomplete message answers 400 "All fields are required" and stores nothing; otherwise the body is stored unchanged and the stored row returned; a bad body or a database error answers 500 "Failed to save message" |
| LoginRoute.SessionCookieFor | app/api/admin/login/route.ts:11-15 | the session cookie holds "authenticated", is httpOnly, lasts 86400 seconds, and is secure only in production |
| LoginRoute.ValidCredentials | app/api/admin/login/route.ts:9 | exactly username "admin" and password "admin123" (proved by OnlyExactCredentials) |
| LoginRoute.Attempt | app/api/admin/login/route.ts:4-24 | logs in iff the username is exactly "admin" and the password exactly "admin123", then sets the session cookie; wrong credentials answer 401 "Invalid credentials" and a malformed body 500 "Authentication failed", both leaving the cookies untouched |
| LoginRoute.LoginOpensSession | lib/auth.ts:5-6 | after an attempt the session check passes iff the attempt succeeded or it passed before |
| LoginRoute.OnlyExactCredentials | app/api/admin/login/route.ts:9 | only the exact pair "admin" / "admin123" logs in |
| LoginRoute.Post | app/api/admin/login/route.ts:4-24 | the response and the new cookie store are those of `Attempt` |
| Auth.CheckAuth | lib/auth.ts:3-7 | the session check passes iff the `admin-session` cookie is present and reads exactly "authenticated" (cases proved by CheckAuthCases) |
| Auth.CheckAuthCases | lib/auth.ts:3-7 | with no session cookie, or any other value in it, the check fails; other cookies play no part |
| Auth.CookieJar.IsAuthenticated | lib/auth.ts:3-7 | `checkAuth` on the store is `CheckAuth` of its cookies |
| Auth.CookieJar.Set | app/api/admin/login/route.ts:11-15 | setting a cookie replaces the cookie of that name |

## Left out

- Characters: `toLowerCase` is modelled for ASCII letters only; other Unicode case mappings are not.
- `trim()` uses the full ECMAScript whitespace set, but no Unicode normalisation is modelled.
- SearchFilter.DecodeEncodeAscii: the encoding round trip is proved for ASCII text only. Other characters are percent-encoded as UTF-8 and never decoded back. Lone surrogates are not modelled.
- `formatFileSize` is not modelled: it relies on floating-point logarithms and rounding.
- `getFileMetadata` is not modelled: it is DOM and asynchronous work.
- The `FileReader` of the image preview is an event method (`PreviewLoaded`). A late load after the file was cleared is not ruled out.
- The notice modal's timers are not modelled.
- `Promise.all` is modelled as three batches that each land or not. Interleaving and concurrent requests are not modelled.
- Sanitize: JavaScript strings are UTF-16 and the expression has no `u` flag, so the source replaces each UTF-16 code unit; the model replaces each character. A character outside the Basic Multilingual Plane (an emoji, say) becomes one `_` in the model and two in the source, so "😀.png" gives "_.png" here and "__.png" there. The length equalities of Storage.Sanitize and AdminUploadRoute.SavedNameIsUnprefixedUniqueName count characters, not code units.
- SanitizeCharwise: holds character by character for the reason above; for a character outside the Basic Multilingual Plane the source writes two `_`, not one.
- Storage.FormatDuration: defined on whole non-negative seconds. Fractional and negative durations are left out.
- FileUpload.Picker.constructor: `maxSize` is a whole number of MB; fractional or negative ceilings are left out.
- AdminUploadRoute.Post: a file object passed as `type` is not modelled, and neither is directory creation.
- AdminUploadRoute.Post: `path.join` normalisation is not modelled. A type of "" or ".." would resolve elsewhere, but the URL still uses the type verbatim.
- The database client is modelled as a table that succeeds or fails. A `null` data result with no error is not modelled.
- Job deletion, the status-update routes and the other admin CRUD routes are not part of this model.
- The JSON data files are assumed to hold lists of records of the right shape. A parse failure is the `Unreadable` case.
- Request bodies: fields are strings or absent. Non-string JSON values in a field are not modelled.
- Rendering, styling and static pages are not modelled.
