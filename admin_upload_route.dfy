/** `POST /api/admin/upload`: save an uploaded file under `public/uploads/<type>/`
    and answer with its public URL. */
module AdminUploadRoute {
  import opened Wrappers
  import opened Strings
  import opened Decimal
  import opened Storage

  datatype AdminUploadResponse =
    | Saved(url: string, filename: string)   // `{success: true, url, filename}`
    | NoFile                                 // 400 "No file provided"
    | UploadFailed                           // 500 "Failed to upload file"
  {
    function Status(): nat
    {
      match this
      case Saved(_, _) => 200
      case NoFile => 400
      case UploadFailed => 500
    }
  }

  /** The saved file's name: the timestamp, `_`, then the sanitised original name. */
  function SavedName(originalName: string, now: nat): string
  {
    NatToString(now) + "_" + Sanitize(originalName)
  }

  /** The public URL of a saved file, with the type used verbatim. */
  function PublicUrl(typ: string, filename: string): string
  {
    "/uploads/" + typ + "/" + filename
  }

  /** The `public/uploads` tree: a written file is keyed by its type directory
      and its name; writing the same key again replaces the file. */
  class UploadsDir {
    var files: map<(string, string), FileInfo>

    constructor ()
      ensures files == map[]
    {
      files := map[];
    }

    method Write(typ: string, filename: string, f: FileInfo)
      modifies this
      ensures files == old(files)[(typ, filename) := f]
    {
      files := files[(typ, filename) := f];
    }
  }

  /** The route. A missing `type` makes the directory join throw; a text value
      in the `file` field has no name, so sanitising it throws; `writeFails`
      says whether the disk write throws. None of these writes a file. No size
      or type limit is applied. */
  method Post(dir: UploadsDir, entry: FormEntry, typ: Option<string>, now: nat, writeFails: bool)
    returns (resp: AdminUploadResponse)
    modifies dir
    ensures !entry.Present() ==> resp == NoFile
    ensures entry.Present() && (typ.None? || entry.Text? || writeFails) ==> resp == UploadFailed
    ensures resp != NoFile && resp != UploadFailed <==> entry.Upload? && typ.Some? && !writeFails
    ensures resp.Saved? ==>
      && resp.filename == SavedName(entry.file.name, now)
      && resp.url == PublicUrl(typ.value, resp.filename)
      && dir.files == old(dir.files)[(typ.value, resp.filename) := entry.file]
    ensures !resp.Saved? ==> dir.files == old(dir.files)
  {
    if !entry.Present() {
      return NoFile;
    }
    if typ.None? || entry.Text? {
      return UploadFailed;
    }
    var filename := NatToString(now) + "_" + Sanitize(entry.file.name);
    if writeFails {
      return UploadFailed;
    }
    dir.Write(typ.value, filename, entry.file);
    resp := Saved("/uploads/" + typ.value + "/" + filename, filename);
  }

  /** The route builds the same name as `generateUniqueFilename` without a prefix,
      so the name reads back as the timestamp and the sanitised original name. */
  lemma SavedNameIsUnprefixedUniqueName(originalName: string, now: nat)
    ensures SavedName(originalName, now) == UniqueFilename(originalName, None, now)
    ensures SplitStamp(SavedName(originalName, now)) == Some((now, Sanitize(originalName)))
    ensures |SavedName(originalName, now)| == |NatToString(now)| + 1 + |originalName|
  {
    UniqueFilenameRoundTrip(originalName, now);
  }

  lemma SanitizedHasNoSlash(name: string)
    ensures '/' !in Sanitize(name)
  {
    SanitizeCharwise(name);
  }

  /** For a type without `/`, the URL's path segments are exactly `uploads`,
      the type and the file name, so the URL gives both back. */
  lemma PublicUrlSegments(typ: string, originalName: string, now: nat)
    requires '/' !in typ
    ensures Split(PublicUrl(typ, SavedName(originalName, now)), '/') == ["", "uploads", typ, SavedName(originalName, now)]
  {
    var name := SavedName(originalName, now);
    DigitsExclude(NatToString(now), '/');
    SanitizedHasNoSlash(originalName);
    assert '/' !in name;
    var url := PublicUrl(typ, name);
    assert url == "" + ['/'] + ("uploads" + ['/'] + (typ + ['/'] + name));
    SplitWithoutSeparator(name, '/');
    SplitAtFirstSeparator(typ, '/', name);
    SplitAtFirstSeparator("uploads", '/', typ + ['/'] + name);
    SplitAtFirstSeparator("", '/', "uploads" + ['/'] + (typ + ['/'] + name));
  }
}
