/** `POST /api/upload-blob`: validate an uploaded file and store it in the
    public blob store under a prefixed, time-stamped name. */
module UploadBlobRoute {
  import opened Wrappers
  import opened Strings
  import opened Storage

  const CvMimeTypes: seq<string> := [
    "application/pdf",
    "application/msword",
    "application/vnd.openxmlformats-officedocument.wordprocessingml.document"]

  const CvExtensions: seq<string> := [".pdf", ".doc", ".docx"]

  const TooLargeVideo := "File too large. Maximum size: 50MB"
  const TooLargeOther := "File too large. Maximum size: 10MB"
  const BadCvType := "Invalid file type for CV. Please upload PDF, DOC, or DOCX files only."

  datatype UploadResponse =
    | Uploaded(url: string, filename: string, size: nat, mime: string)
    | BadRequest(error: string)
    | Failed(error: string)
  {
    function Status(): nat
    {
      match this
      case Uploaded(_, _, _, _) => 200
      case BadRequest(_) => 400
      case Failed(_) => 500
    }
  }

  /** The `type` field, `"general"` when absent or empty. */
  function UploadType(typ: Option<string>): (t: string)
    ensures t != ""
    ensures Truthy(typ) ==> t == typ.value
    ensures !Truthy(typ) ==> t == "general"
  {
    if Truthy(typ) then typ.value else "general"
  }

  /** The size ceiling in bytes: 50 MiB for a `video/` MIME type, 10 MiB otherwise. */
  function MaxSize(mime: string): nat
  {
    (if StartsWith(mime, "video/") then 50 else 10) * MiB
  }

  /** The CV allow-list: one of three document MIME types, or a name ending in
      `.pdf`, `.doc` or `.docx` once lowercased. */
  predicate CvAccepted(f: FileInfo)
  {
    f.mime in CvMimeTypes || exists k :: 0 <= k < |CvExtensions| && EndsWith(Lower(f.name), CvExtensions[k])
  }

  /** The checks that run before the store write, in order; `None` when the
      file may be stored. A text value in the `file` field has no `type`
      property, so reading it throws and the route answers 500. */
  function Rejection(entry: FormEntry, typ: Option<string>): (r: Option<UploadResponse>)
  {
    if !entry.Present() then Some(BadRequest("No file provided"))
    else if entry.Text? then Some(Failed("Upload failed"))
    else if entry.file.size > MaxSize(entry.file.mime) then
      Some(BadRequest(if StartsWith(entry.file.mime, "video/") then TooLargeVideo else TooLargeOther))
    else if UploadType(typ) == "cvs" && !CvAccepted(entry.file) then Some(BadRequest(BadCvType))
    else None
  }

  /** The name the file is stored under. */
  function StoredName(f: FileInfo, typ: Option<string>, now: nat): string
  {
    UniqueFilename(f.name, Some(UploadType(typ)), now)
  }

  /** The public blob store: every successful `put` appends its pathname and file. */
  class BlobStore {
    var puts: seq<(string, FileInfo)>

    constructor ()
      ensures puts == []
    {
      puts := [];
    }

    method Put(pathname: string, f: FileInfo)
      modifies this
      ensures puts == old(puts) + [(pathname, f)]
    {
      puts := puts + [(pathname, f)];
    }
  }

  /** The route. `now` is `Date.now()`; `hostedUrl` is the URL the store
      reports and `putFails` whether `put` throws. */
  method Post(store: BlobStore, entry: FormEntry, typ: Option<string>, now: nat,
              hostedUrl: string, putFails: bool)
    returns (resp: UploadResponse)
    modifies store
    ensures Rejection(entry, typ).Some? ==> resp == Rejection(entry, typ).value && store.puts == old(store.puts)
    ensures Rejection(entry, typ).None? && putFails ==> resp == Failed("Upload failed") && store.puts == old(store.puts)
    ensures Rejection(entry, typ).None? && !putFails ==>
      var name := StoredName(entry.file, typ, now);
      && resp == Uploaded(hostedUrl, name, entry.file.size, entry.file.mime)
      && store.puts == old(store.puts) + [(name, entry.file)]
  {
    var rejected := Rejection(entry, typ);
    if rejected.Some? {
      return rejected.value;
    }
    var f := entry.file;
    var filename := UniqueFilename(f.name, Some(UploadType(typ)), now);
    if putFails {
      return Failed("Upload failed");
    }
    store.Put(filename, f);
    resp := Uploaded(hostedUrl, filename, f.size, f.mime);
  }

  /** A missing or empty `file` entry is a 400 before anything else. */
  lemma MissingFileRejected(entry: FormEntry, typ: Option<string>)
    requires entry == Absent || entry == Text("")
    ensures Rejection(entry, typ) == Some(BadRequest("No file provided"))
  {
  }

  /** The ceiling is inclusive, 50 MiB for videos and 10 MiB otherwise: a file
      over it is refused with the matching message, one exactly at it passes the
      size check. */
  lemma SizeCeiling(f: FileInfo, typ: Option<string>)
    ensures StartsWith(f.mime, "video/") ==> MaxSize(f.mime) == 52428800
    ensures !StartsWith(f.mime, "video/") ==> MaxSize(f.mime) == 10485760
    ensures f.size > MaxSize(f.mime) ==>
      Rejection(Upload(f), typ) == Some(BadRequest(if StartsWith(f.mime, "video/") then TooLargeVideo else TooLargeOther))
    ensures f.size == MaxSize(f.mime) && UploadType(typ) != "cvs" ==> Rejection(Upload(f), typ).None?
  {
  }

  /** For the `cvs` type, a file within the ceiling is stored iff the CV
      allow-list admits it; for every other type, no MIME or extension check
      is made. */
  lemma CvRule(f: FileInfo, typ: Option<string>)
    requires f.size <= MaxSize(f.mime)
    ensures UploadType(typ) == "cvs" ==> (Rejection(Upload(f), typ).None? <==> CvAccepted(f))
    ensures UploadType(typ) != "cvs" ==> Rejection(Upload(f), typ).None?
  {
  }

  /** A lowercased `.pdf` name is enough, whatever the MIME type says. */
  lemma CvByExtension(f: FileInfo)
    requires EndsWith(Lower(f.name), ".pdf")
    ensures CvAccepted(f)
  {
    assert EndsWith(Lower(f.name), CvExtensions[0]);
  }

  /** The stored name starts with the upload type and `_`; without a `type`
      field that is `general_`. */
  lemma StoredNamePrefix(f: FileInfo, typ: Option<string>, now: nat)
    ensures StartsWith(StoredName(f, typ, now), UploadType(typ) + "_")
    ensures !Truthy(typ) ==> StartsWith(StoredName(f, typ, now), "general_")
  {
    var t := UploadType(typ);
    UniqueFilenamePrefix(f.name, Some(t), now);
    assert StoredName(f, typ, now) == (t + "_") + UniqueFilename(f.name, None, now);
  }
}
