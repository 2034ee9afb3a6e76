/** The admin image field (`components/admin/ImageUpload.tsx`): a text
    input holding an image URL, which a file upload, typing, or clearing
    sets. The upload itself is a parameter (its result), and the URLs
    handed to the `onChange` callback are recorded in order. */
module ImageUpload {
  import opened Wrappers
  import Text

  /** Five mebibytes, the largest file accepted. */
  const MaxSize := 5 * 1024 * 1024

  const TypeMessage := "Please select an image file"
  const SizeMessage := "Image size must be less than 5MB"
  const NoUrlMessage := "Failed to upload image. Please try again."
  const FallbackMessage := "Upload failed. Please try again."
  const PolicyHint := " Check STORAGE_SETUP.md for setup instructions."

  /** The chosen file: the name the file input shows, its MIME type and
      its size in bytes. */
  datatype File = File(name: string, mime: string, size: int)

  /** How the upload ended: a URL (possibly empty), or a thrown error with
      or without a message. */
  datatype UploadResult = Uploaded(url: string) | Threw(message: Option<string>)

  /** The guards before any upload: the type first, then the size. */
  function Check(file: File): (r: Option<string>)
    ensures !Text.StartsWith(file.mime, "image/") ==> r == Some(TypeMessage)
    ensures Text.StartsWith(file.mime, "image/") && file.size > MaxSize ==> r == Some(SizeMessage)
    ensures r.None? <==> Text.StartsWith(file.mime, "image/") && file.size <= MaxSize
  {
    if !Text.StartsWith(file.mime, "image/") then Some(TypeMessage)
    else if file.size > MaxSize then Some(SizeMessage)
    else None
  }

  /** A file of exactly 5 MiB is accepted, one byte more is not. */
  lemma LimitIsInclusive(name: string, mime: string)
    requires Text.StartsWith(mime, "image/")
    ensures Check(File(name, mime, MaxSize)).None?
    ensures Check(File(name, mime, MaxSize + 1)) == Some(SizeMessage)
  {
  }

  /** The type is checked first: a file that is not an image is refused
      as such whatever its size. */
  lemma TypeBeforeSize(name: string, mime: string, size: int)
    requires !Text.StartsWith(mime, "image/")
    ensures Check(File(name, mime, size)) == Some(TypeMessage)
  {
  }

  const PolicyPhrase := "Storage policy"
  const SecurityPhrase := "row-level security"

  /** The error is about storage policies. */
  predicate AboutPolicy(m: string)
  {
    Text.Contains(m, PolicyPhrase) || Text.Contains(m, SecurityPhrase)
  }

  /** The message after a thrown upload: the error's message (or the
      fallback), with a hint added when it is about storage policies. */
  function ThrownMessage(message: Option<string>): (r: string)
    ensures message.Some? && message.value != "" && AboutPolicy(message.value) ==> r == message.value + PolicyHint
    ensures message.Some? && message.value != "" && !AboutPolicy(message.value) ==> r == message.value
  {
    var m := if message.Some? && message.value != "" then message.value else FallbackMessage;
    if AboutPolicy(m) then m + PolicyHint else m
  }

  class Field {
    var isUploading: bool
    var uploadError: Option<string>
    var inputValue: string
    /** The file input's own value: the chosen file's name, emptied after
        every upload. */
    var fileInput: string
    /** The arguments of the `onChange` calls so far. */
    var reported: seq<string>

    /** The last URL reported is the one the input shows. */
    predicate Synced()
      reads this
    {
      reported == [] || reported[|reported| - 1] == inputValue
    }

    /** The field starts from its `value` prop, `''` when absent. */
    constructor(value: Option<string>)
      ensures !isUploading && uploadError.None? && fileInput == "" && reported == []
      ensures value.Some? ==> inputValue == value.value
      ensures value.None? ==> inputValue == ""
      ensures Synced()
    {
      isUploading := false;
      uploadError := None;
      inputValue := if value.Some? then value.value else "";
      fileInput := "";
      reported := [];
    }

    /** `handleFileSelect`: no file does nothing; a file the guards refuse
        only sets their message and nothing is uploaded, and the file input
        keeps showing that file; otherwise the upload runs, a non-empty URL
        is shown and reported, an empty one or a thrown error only sets a
        message. Uploading is over and the file input is emptied in every
        case that uploads. */
    method HandleFileSelect(file: Option<File>, result: UploadResult)
      modifies this
      ensures file.None? ==>
        isUploading == old(isUploading) && uploadError == old(uploadError) && inputValue == old(inputValue)
        && fileInput == old(fileInput) && reported == old(reported)
      ensures file.Some? && Check(file.value).Some? ==>
        uploadError == Check(file.value) && isUploading == old(isUploading) && inputValue == old(inputValue)
        && fileInput == file.value.name && reported == old(reported)
      ensures file.Some? && Check(file.value).None? ==> !isUploading && fileInput == ""
      ensures file.Some? && Check(file.value).None? && result.Uploaded? && result.url != "" ==>
        inputValue == result.url && reported == old(reported) + [result.url] && uploadError.None?
      ensures file.Some? && Check(file.value).None? && result.Uploaded? && result.url == "" ==>
        inputValue == old(inputValue) && reported == old(reported) && uploadError == Some(NoUrlMessage)
      ensures file.Some? && Check(file.value).None? && result.Threw? ==>
        inputValue == old(inputValue) && reported == old(reported)
        && uploadError == Some(ThrownMessage(result.message))
      ensures old(Synced()) ==> Synced()
    {
      if file.None? {
        return;
      }
      var f := file.value;
      fileInput := f.name;
      if !Text.StartsWith(f.mime, "image/") {
        uploadError := Some(TypeMessage);
        return;
      }
      if f.size > MaxSize {
        uploadError := Some(SizeMessage);
        return;
      }
      BeginUpload();
      match result {
        case Uploaded(url) =>
          if url != "" {
            inputValue := url;
            reported := reported + [url];
          } else {
            uploadError := Some(NoUrlMessage);
          }
        case Threw(message) =>
          var m := if message.Some? && message.value != "" then message.value else FallbackMessage;
          uploadError := Some(m);
          if AboutPolicy(m) {
            uploadError := Some(m + PolicyHint);
          }
      }
      isUploading := false;
      fileInput := "";
    }

    /** The upload starts: uploading, no message. */
    method BeginUpload()
      modifies this
      ensures isUploading && uploadError.None?
      ensures inputValue == old(inputValue) && fileInput == old(fileInput) && reported == old(reported)
    {
      isUploading := true;
      uploadError := None;
    }

    /** `handleUrlChange`: the typed URL is shown and reported as is. */
    method HandleUrlChange(url: string)
      modifies this
      ensures inputValue == url && reported == old(reported) + [url]
      ensures isUploading == old(isUploading) && uploadError == old(uploadError) && fileInput == old(fileInput)
      ensures Synced()
    {
      inputValue := url;
      reported := reported + [url];
    }

    /** `handleClear`: the input is emptied, `''` is reported and the
        message cleared. */
    method HandleClear()
      modifies this
      ensures inputValue == "" && reported == old(reported) + [""] && uploadError.None?
      ensures isUploading == old(isUploading) && fileInput == old(fileInput)
      ensures Synced()
    {
      inputValue := "";
      reported := reported + [""];
      uploadError := None;
    }
  }
}
