/**
 * `PhotoUploader`: the drop zone and file input. It works out how many photos may still be added,
 * whether it is disabled, which status text to show, and whether a drop or a pick is passed on.
 */
module PhotoUploader {
  import opened Results
  import opened Types
  import opened Text

  const PROCESSING_TEXT := "處理照片中..."
  const LIMIT_TEXT := "已達照片上限"
  const PROMPT_TEXT := "點擊或拖曳上傳照片"

  /** `MAX_PHOTOS - currentCount`: the photos already held and the places left make up the limit. */
  function Remaining(currentCount: nat): (r: int)
    ensures currentCount + r == MAX_PHOTOS
    ensures r <= 0 <==> currentCount >= MAX_PHOTOS
  {
    MAX_PHOTOS - currentCount
  }

  /** The uploader is disabled when no place is left or a batch is being processed. */
  predicate IsDisabled(currentCount: nat, isLoading: bool)
  {
    Remaining(currentCount) <= 0 || isLoading
  }

  /** The guard at the top of both `handleDrop` and `handleChange`: files are passed on only
      below the limit and when nothing is being processed, which is exactly when the uploader
      is enabled. */
  predicate Accepts(currentCount: nat, isLoading: bool)
    ensures Accepts(currentCount, isLoading) <==> !IsDisabled(currentCount, isLoading)
  {
    !(currentCount >= MAX_PHOTOS || isLoading)
  }

  /** A drop: the handler is detached while disabled, and guards again itself. The result is
      `Some(files)` when `onUpload(files)` is called (`files` may itself be a null list). */
  function HandleDrop(currentCount: nat, isLoading: bool, files: Option<seq<File>>): (r: Option<Option<seq<File>>>)
    ensures r.Some? <==> currentCount < MAX_PHOTOS && !isLoading
    ensures r.Some? ==> r.value == files
  {
    if IsDisabled(currentCount, isLoading) then None
    else if currentCount >= MAX_PHOTOS || isLoading then None
    else Some(files)
  }

  /** The headline: processing wins over the limit, which wins over the upload prompt. */
  function Headline(currentCount: nat, isLoading: bool): (r: string)
    ensures isLoading ==> r == PROCESSING_TEXT
    ensures !isLoading && currentCount >= MAX_PHOTOS ==> r == LIMIT_TEXT
    ensures !isLoading && currentCount < MAX_PHOTOS ==> r == PROMPT_TEXT
  {
    if isLoading then PROCESSING_TEXT
    else if IsDisabled(currentCount, isLoading) then LIMIT_TEXT
    else PROMPT_TEXT
  }

  /** The line under the headline: the limit while disabled, otherwise the accepted formats and
      how many photos may still be added (a positive number there). */
  function Detail(currentCount: nat, isLoading: bool): (r: string)
    ensures IsDisabled(currentCount, isLoading) ==> r == "最多只能上傳 " + Decimal(MAX_PHOTOS) + " 張照片"
    ensures !IsDisabled(currentCount, isLoading) ==>
      0 < MAX_PHOTOS - currentCount && r == "支援 JPG, PNG, HEIC 格式 (還可上傳 " + Decimal(MAX_PHOTOS - currentCount) + " 張)"
  {
    if IsDisabled(currentCount, isLoading) then "最多只能上傳 " + Decimal(MAX_PHOTOS) + " 張照片"
    else "支援 JPG, PNG, HEIC 格式 (還可上傳 " + Decimal(Remaining(currentCount)) + " 張)"
  }

  /** The `<input type="file">` element, whose value the change handler clears. */
  class FileInput {
    var value: string

    constructor ()
      ensures value == ""
    {
      value := "";
    }

    /** A pick: forwarded when accepted, and then the input is cleared so that the same file can
        be picked again; a refused pick leaves the input as it was. */
    method HandleChange(currentCount: nat, isLoading: bool, files: Option<seq<File>>)
      returns (forwarded: Option<Option<seq<File>>>)
      modifies this
      ensures forwarded.Some? <==> Accepts(currentCount, isLoading)
      ensures forwarded.Some? ==> forwarded.value == files
      ensures value == (if forwarded.Some? then "" else old(value))
    {
      if currentCount >= MAX_PHOTOS || isLoading {
        return None;
      }
      forwarded := Some(files);
      value := "";
    }
  }
}
