/**
 * `processImageFile`: HEIC photos are converted to JPEG and renamed; every other file passes
 * through untouched. The HEIC decoder itself is an oracle whose answer is a parameter.
 */
module ImageUtils {
  import opened Results
  import opened Types
  import opened Text

  /** The bytes a converter hands back. */
  datatype Blob = Blob(bytes: seq<bv8>)

  /** What the HEIC converter produced for one file: one blob, an array of blobs, or a failure. */
  datatype ConvertOutcome = Converted(blob: Blob) | ConvertedMany(blobs: seq<Blob>) | ConversionFailed

  const HEIC_MIME := "image/heic"
  const JPEG_MIME := "image/jpeg"
  const HEIC_SUFFIX := ".heic"
  const JPEG_SUFFIX := ".jpg"
  const CONVERSION_ERROR_PREFIX := "無法轉換 HEIC 檔案: "

  /** What `new File([undefined], …)` holds: the text "undefined", which is what an empty
      result array's first element becomes. */
  const UNDEFINED_TEXT: seq<bv8> := [0x75, 0x6e, 0x64, 0x65, 0x66, 0x69, 0x6e, 0x65, 0x64]

  /** A file counts as HEIC when its lower-cased name ends in `.heic` or its type says so. */
  predicate IsHeic(f: File)
  {
    EndsWith(ToLower(f.name), HEIC_SUFFIX) || f.mime == HEIC_MIME
  }

  /** `s` equals the lower-case pattern `pattern` ignoring ASCII case. */
  predicate MatchesIgnoreCase(s: string, pattern: string)
  {
    |s| == |pattern| && forall i :: 0 <= i < |s| ==> LowerChar(s[i]) == pattern[i]
  }

  /** `name.replace(/\.heic$/i, '.jpg')`: the pattern is anchored at the end, so only a final
      `.heic` in any letter case is replaced; the replacement agrees with the name test of `IsHeic`. */
  function RenameHeic(name: string): (r: string)
    ensures EndsWith(ToLower(name), HEIC_SUFFIX) ==> r == name[..|name| - 5] + JPEG_SUFFIX
    ensures !EndsWith(ToLower(name), HEIC_SUFFIX) ==> r == name
  {
    if |name| >= 5 && MatchesIgnoreCase(name[|name| - 5..], HEIC_SUFFIX) then
      name[..|name| - 5] + JPEG_SUFFIX
    else
      name
  }

  /** The renamed file no longer looks like HEIC by its name. */
  lemma RenameHeicLeavesNoHeicName(name: string)
    ensures !EndsWith(ToLower(RenameHeic(name)), HEIC_SUFFIX)
  {
    var r := RenameHeic(name);
    if EndsWith(ToLower(name), HEIC_SUFFIX) {
      assert ToLower(r)[|r| - 1] == 'g';
    }
  }

  /** The bytes of the converted file: the blob, or the first blob of an array. */
  function ConvertedBytes(outcome: ConvertOutcome): seq<bv8>
    requires !outcome.ConversionFailed?
  {
    match outcome
    case Converted(b) => b.bytes
    case ConvertedMany(bs) => if |bs| > 0 then bs[0].bytes else UNDEFINED_TEXT
  }

  /** `processImageFile(file)`, with `outcome` standing for what `heic2any` would produce for it. */
  function ProcessImageFile(file: File, outcome: ConvertOutcome): (r: Result<File, string>)
    ensures !IsHeic(file) ==> r == Ok(file)
    ensures IsHeic(file) && outcome.ConversionFailed? ==> r.Err? && EndsWith(r.error, file.name)
    ensures IsHeic(file) && !outcome.ConversionFailed? ==>
      r.Ok? && r.value.name == RenameHeic(file.name) && r.value.mime == JPEG_MIME
    ensures IsHeic(file) && outcome.Converted? ==> r.Ok? && r.value.bytes == outcome.blob.bytes
    ensures IsHeic(file) && outcome.ConvertedMany? && |outcome.blobs| > 0 ==>
      r.Ok? && r.value.bytes == outcome.blobs[0].bytes
    ensures IsHeic(file) && outcome == ConvertedMany([]) ==> r.Ok? && r.value.bytes == UNDEFINED_TEXT
    ensures r.Ok? ==> !IsHeic(r.value)
  {
    if IsHeic(file) then
      match outcome
      case ConversionFailed => Err(CONVERSION_ERROR_PREFIX + file.name)
      case _ =>
        RenameHeicLeavesNoHeicName(file.name);
        Ok(File(RenameHeic(file.name), JPEG_MIME, ConvertedBytes(outcome)))
    else
      Ok(file)
  }

  /** Normalising is idempotent: a processed file passes through a second time unchanged. */
  lemma ProcessIdempotent(file: File, first: ConvertOutcome, second: ConvertOutcome)
    requires ProcessImageFile(file, first).Ok?
    ensures ProcessImageFile(ProcessImageFile(file, first).value, second) == ProcessImageFile(file, first)
  {
  }
}
