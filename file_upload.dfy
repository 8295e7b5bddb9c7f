/** The admin file picker: drag highlighting, the size check on a chosen file,
    the file handed to the parent, and the image preview. */
module FileUpload {
  import opened Wrappers
  import opened Strings
  import opened Decimal
  import opened Storage

  const DefaultMaxSize: nat := 5

  function TooLargeAlert(maxSize: nat): string
  {
    "File size must be less than " + NatToString(maxSize) + "MB"
  }

  class Picker {
    /** The size ceiling in MB (the `maxSize` prop). */
    const maxSize: nat
    var dragActive: bool
    var selectedFile: Option<FileInfo>
    /** The preview URL: the `currentFile` prop at first, later a data URL. */
    var preview: Option<string>
    /** Every file passed to `onFileSelect`, in order. */
    var delivered: seq<FileInfo>
    /** Every `alert` shown, in order. */
    var alerts: seq<string>

    /** Only files within the ceiling are ever selected or handed on, and the
        selected file is the one handed on last. */
    ghost predicate Valid()
      reads this
    {
      && (forall k :: 0 <= k < |delivered| ==> ValidateFileSize(delivered[k], maxSize))
      && (selectedFile.Some? ==> delivered != [] && delivered[|delivered| - 1] == selectedFile.value)
    }

    constructor (maxSizeProp: Option<nat>, currentFile: Option<string>)
      ensures Valid()
      ensures maxSize == maxSizeProp.GetOr(DefaultMaxSize)
      ensures !dragActive && selectedFile.None? && delivered == [] && alerts == []
      ensures preview == if Truthy(currentFile) then currentFile else None
    {
      maxSize := maxSizeProp.GetOr(DefaultMaxSize);
      dragActive := false;
      selectedFile := None;
      preview := if Truthy(currentFile) then currentFile else None;
      delivered := [];
      alerts := [];
    }

    /** `dragenter` and `dragover` turn the highlight on, `dragleave` turns it
        off, any other event leaves it. */
    method HandleDrag(eventType: string)
      modifies this
      ensures dragActive == if eventType == "dragenter" || eventType == "dragover" then true
                            else if eventType == "dragleave" then false
                            else old(dragActive)
      ensures selectedFile == old(selectedFile) && preview == old(preview)
      ensures delivered == old(delivered) && alerts == old(alerts)
    {
      if eventType == "dragenter" || eventType == "dragover" {
        dragActive := true;
      } else if eventType == "dragleave" {
        dragActive := false;
      }
    }

    /** A chosen file: refused with an alert when it is over the ceiling
        (boundary inclusive), otherwise selected and handed on. An image's
        preview arrives later, through `PreviewLoaded`; any other file clears it. */
    method HandleFileSelect(file: FileInfo)
      requires Valid()
      modifies this
      ensures Valid()
      ensures dragActive == old(dragActive)
      ensures !ValidateFileSize(file, maxSize) ==>
        && alerts == old(alerts) + [TooLargeAlert(maxSize)]
        && selectedFile == old(selectedFile) && preview == old(preview) && delivered == old(delivered)
      ensures ValidateFileSize(file, maxSize) ==>
        && alerts == old(alerts)
        && selectedFile == Some(file) && delivered == old(delivered) + [file]
        && preview == if StartsWith(file.mime, "image/") then old(preview) else None
    {
      if file.size > maxSize * 1024 * 1024 {
        alerts := alerts + [TooLargeAlert(maxSize)];
        return;
      }
      selectedFile := Some(file);
      delivered := delivered + [file];
      if !StartsWith(file.mime, "image/") {
        preview := None;
      }
    }

    /** The `FileReader` of an image has produced its data URL. */
    method PreviewLoaded(dataUrl: string)
      modifies this
      ensures preview == Some(dataUrl)
      ensures dragActive == old(dragActive) && selectedFile == old(selectedFile)
      ensures delivered == old(delivered) && alerts == old(alerts)
    {
      preview := Some(dataUrl);
    }

    /** A drop clears the highlight and sends only the first dropped file
        through the size check. */
    method HandleDrop(files: seq<FileInfo>)
      requires Valid()
      modifies this
      ensures Valid()
      ensures !dragActive
      ensures files == [] ==>
        selectedFile == old(selectedFile) && preview == old(preview)
        && delivered == old(delivered) && alerts == old(alerts)
      ensures files != [] && ValidateFileSize(files[0], maxSize) ==>
        && selectedFile == Some(files[0]) && delivered == old(delivered) + [files[0]] && alerts == old(alerts)
        && preview == if StartsWith(files[0].mime, "image/") then old(preview) else None
      ensures files != [] && !ValidateFileSize(files[0], maxSize) ==>
        && selectedFile == old(selectedFile) && delivered == old(delivered) && preview == old(preview)
        && alerts == old(alerts) + [TooLargeAlert(maxSize)]
    {
      dragActive := false;
      if files != [] {
        HandleFileSelect(files[0]);
      }
    }

    /** A choice through the file input: the first chosen file goes through the
        size check. */
    method HandleInputChange(files: seq<FileInfo>)
      requires Valid()
      modifies this
      ensures Valid()
      ensures dragActive == old(dragActive)
      ensures files == [] ==>
        selectedFile == old(selectedFile) && preview == old(preview)
        && delivered == old(delivered) && alerts == old(alerts)
      ensures files != [] && ValidateFileSize(files[0], maxSize) ==>
        && selectedFile == Some(files[0]) && delivered == old(delivered) + [files[0]] && alerts == old(alerts)
        && preview == if StartsWith(files[0].mime, "image/") then old(preview) else None
      ensures files != [] && !ValidateFileSize(files[0], maxSize) ==>
        && selectedFile == old(selectedFile) && delivered == old(delivered) && preview == old(preview)
        && alerts == old(alerts) + [TooLargeAlert(maxSize)]
    {
      if files != [] {
        HandleFileSelect(files[0]);
      }
    }

    method ClearFile()
      requires Valid()
      modifies this
      ensures Valid()
      ensures selectedFile.None? && preview.None?
      ensures dragActive == old(dragActive) && delivered == old(delivered) && alerts == old(alerts)
    {
      selectedFile := None;
      preview := None;
    }
  }
}
