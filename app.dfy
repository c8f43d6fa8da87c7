/**
 * The top-level controller (`App`): the session's photo list and flags, and the handlers that
 * change them — upload, recategorise, remove, drag-reorder, reset and PDF download.
 * Each list change is specified by a function of the old list, and those functions carry the
 * properties; the class `AppState` holds the state the handlers update.
 */
module App {
  import opened Results
  import opened Types
  import opened Text
  import opened ImageUtils
  import PhotoCard

  const DEFAULT_FILENAME := "家訪照片紀錄"
  const PDF_SUFFIX := ".pdf"
  const PROCESSING_ERROR := "處理照片時發生錯誤，請確認檔案格式是否正確。"
  const EXPORT_ERROR := "生成 PDF 時發生錯誤，請重試。"

  /** The warning shown when a batch is larger than the places left. */
  function CapacityWarning(slots: nat): string
  {
    "超過上限，僅處理前 " + Decimal(slots) + " 張照片。"
  }

  // ---------------------------------------------------------------------------------------
  // Identity

  /** No two photos share an id. Ids come from `Math.random`, so this is what the session
      relies on rather than something the code enforces. */
  predicate UniqueIds(photos: seq<Photo>)
  {
    forall i, j :: 0 <= i < j < |photos| ==> photos[i].id != photos[j].id
  }

  predicate HasId(photos: seq<Photo>, id: string)
  {
    exists k :: 0 <= k < |photos| && photos[k].id == id
  }

  /** The id oracle gives `n` ids, distinct among themselves and from those already held. */
  predicate FreshIds(ids: nat -> string, n: nat, photos: seq<Photo>)
  {
    && (forall a, b :: 0 <= a < b < n ==> ids(a) != ids(b))
    && (forall a, k :: 0 <= a < n && 0 <= k < |photos| ==> ids(a) != photos[k].id)
  }

  // ---------------------------------------------------------------------------------------
  // Upload

  /** `newFiles.slice(0, availableSlots)`: the first `slots` files of the batch, or all of them. */
  function FilesToProcess(files: seq<File>, slots: nat): (r: seq<File>)
    ensures |r| == (if |files| <= slots then |files| else slots)
    ensures r == files[..|r|]
  {
    files[..if |files| <= slots then |files| else slots]
  }

  /** `Promise.all(files.map(processImageFile))`, taken one file after another: all the processed
      files in batch order, or the first error if any file fails. */
  function ProcessBatch(files: seq<File>, convert: File -> ConvertOutcome): (r: Result<seq<File>, string>)
    ensures r.Ok? <==> forall i :: 0 <= i < |files| ==> ProcessImageFile(files[i], convert(files[i])).Ok?
    ensures r.Ok? ==> |r.value| == |files|
    ensures r.Ok? ==> forall i :: 0 <= i < |files| ==> r.value[i] == ProcessImageFile(files[i], convert(files[i])).value
  {
    if files == [] then Ok([])
    else
      match ProcessImageFile(files[0], convert(files[0]))
      case Err(e) => Err(e)
      case Ok(f) =>
        var rest := ProcessBatch(files[1..], convert);
        assert forall i :: 0 < i < |files| ==> files[i] == files[1..][i - 1];
        match rest
        case Err(e) => Err(e)
        case Ok(fs) => Ok([f] + fs)
  }

  /** The new entries for the processed files, with ids and preview URLs from the oracles. */
  function NewPhotos(processed: seq<File>, ids: nat -> string, urls: nat -> string): (r: seq<Photo>)
    ensures |r| == |processed|
    ensures forall k :: 0 <= k < |r| ==>
      r[k].id == ids(k) && r[k].file == processed[k] && r[k].previewUrl == urls(k) &&
      r[k].category == DEFAULT_CATEGORIES[0] && !r[k].isCustomCategory
  {
    seq(|processed|, k requires 0 <= k < |processed| =>
      Photo(ids(k), processed[k], urls(k), DEFAULT_CATEGORIES[0], false))
  }

  /** One upload of a non-null batch, as one step: the new photo list and the error text. */
  function Upload(photos: seq<Photo>, files: seq<File>, convert: File -> ConvertOutcome,
                  ids: nat -> string, urls: nat -> string): (seq<Photo>, Option<string>)
    requires |photos| <= MAX_PHOTOS
  {
    var slots := MAX_PHOTOS - |photos|;
    var warning := if |files| > slots then Some(CapacityWarning(slots)) else None;
    match ProcessBatch(FilesToProcess(files, slots), convert)
    case Ok(processed) => (photos + NewPhotos(processed, ids, urls), warning)
    case Err(_) => (photos, Some(PROCESSING_ERROR))
  }

  /** An upload never takes the list past the limit, and never drops or moves what was there. */
  lemma UploadWithinCapacity(photos: seq<Photo>, files: seq<File>, convert: File -> ConvertOutcome,
                             ids: nat -> string, urls: nat -> string)
    requires |photos| <= MAX_PHOTOS
    ensures |Upload(photos, files, convert, ids, urls).0| <= MAX_PHOTOS
    ensures Upload(photos, files, convert, ids, urls).0[..|photos|] == photos
  {
  }

  /** When every kept file is processed, exactly the kept files are appended, in batch order
      (the k-th new photo holds the k-th processed file, which `ProcessBatch` ties to the k-th
      file of the batch), each with the first preset category and not custom. */
  lemma UploadSuccess(photos: seq<Photo>, files: seq<File>, convert: File -> ConvertOutcome,
                      ids: nat -> string, urls: nat -> string)
    requires |photos| <= MAX_PHOTOS
    requires ProcessBatch(FilesToProcess(files, MAX_PHOTOS - |photos|), convert).Ok?
    ensures var after := Upload(photos, files, convert, ids, urls).0;
      var processed := ProcessBatch(FilesToProcess(files, MAX_PHOTOS - |photos|), convert).value;
      && |after| == |photos| + |processed|
      && |processed| == (if |files| <= MAX_PHOTOS - |photos| then |files| else MAX_PHOTOS - |photos|)
      && after[..|photos|] == photos
      && forall k :: 0 <= k < |processed| ==>
           after[|photos| + k] == Photo(ids(k), processed[k], urls(k), DEFAULT_CATEGORIES[0], false)
  {
    var processed := ProcessBatch(FilesToProcess(files, MAX_PHOTOS - |photos|), convert).value;
    var added := NewPhotos(processed, ids, urls);
    var after := Upload(photos, files, convert, ids, urls).0;
    assert after == photos + added;
    forall k | 0 <= k < |processed|
      ensures after[|photos| + k] == Photo(ids(k), processed[k], urls(k), DEFAULT_CATEGORIES[0], false)
    {
      assert after[|photos| + k] == added[k];
    }
  }

  /** When every kept file is processed, the capacity warning is shown exactly when the batch
      was larger than the places left, and names the places left. */
  lemma UploadWarning(photos: seq<Photo>, files: seq<File>, convert: File -> ConvertOutcome,
                      ids: nat -> string, urls: nat -> string)
    requires |photos| <= MAX_PHOTOS
    requires ProcessBatch(FilesToProcess(files, MAX_PHOTOS - |photos|), convert).Ok?
    ensures var error := Upload(photos, files, convert, ids, urls).1;
      && (error.Some? <==> |files| > MAX_PHOTOS - |photos|)
      && (error.Some? ==> error.value == CapacityWarning(MAX_PHOTOS - |photos|))
  {
  }

  /** If any kept file fails to process, the whole batch is dropped: the list is unchanged and
      the processing error replaces any capacity warning. */
  lemma UploadFailureIsAllOrNothing(photos: seq<Photo>, files: seq<File>, convert: File -> ConvertOutcome,
                                    ids: nat -> string, urls: nat -> string, bad: nat)
    requires |photos| <= MAX_PHOTOS
    requires bad < |files| && bad < MAX_PHOTOS - |photos|
    requires ProcessImageFile(files[bad], convert(files[bad])).Err?
    ensures Upload(photos, files, convert, ids, urls) == (photos, Some(PROCESSING_ERROR))
  {
    var kept := FilesToProcess(files, MAX_PHOTOS - |photos|);
    assert kept[bad] == files[bad];
  }

  /** Appending photos that carry the first fresh ids keeps the ids unique. */
  lemma AppendFreshKeepsIdsUnique(photos: seq<Photo>, added: seq<Photo>, ids: nat -> string, n: nat)
    requires UniqueIds(photos) && FreshIds(ids, n, photos)
    requires |added| <= n && forall k :: 0 <= k < |added| ==> added[k].id == ids(k)
    ensures UniqueIds(photos + added)
  {
    var after := photos + added;
    forall i, j | 0 <= i < j < |after| ensures after[i].id != after[j].id {
      if j >= |photos| {
        assert after[j] == added[j - |photos|];
        if i >= |photos| {
          assert after[i] == added[i - |photos|];
        }
      }
    }
  }

  /** With fresh ids from the oracle, an upload keeps the ids unique. */
  lemma UploadKeepsIdsUnique(photos: seq<Photo>, files: seq<File>, convert: File -> ConvertOutcome,
                             ids: nat -> string, urls: nat -> string)
    requires |photos| <= MAX_PHOTOS && UniqueIds(photos)
    requires FreshIds(ids, |files|, photos)
    ensures UniqueIds(Upload(photos, files, convert, ids, urls).0)
  {
    var kept := FilesToProcess(files, MAX_PHOTOS - |photos|);
    var batch := ProcessBatch(kept, convert);
    if batch.Ok? {
      var added := NewPhotos(batch.value, ids, urls);
      assert Upload(photos, files, convert, ids, urls).0 == photos + added;
      AppendFreshKeepsIdsUnique(photos, added, ids, |files|);
    }
  }

  // ---------------------------------------------------------------------------------------
  // Recategorise

  /** `prev.map(p => p.id === id ? { ...p, category, isCustomCategory: isCustom } : p)`. */
  function UpdateAll(photos: seq<Photo>, id: string, category: string, isCustom: bool): (r: seq<Photo>)
    ensures |r| == |photos|
    ensures forall k :: 0 <= k < |r| ==>
      r[k].id == photos[k].id && r[k].file == photos[k].file && r[k].previewUrl == photos[k].previewUrl
    ensures forall k :: 0 <= k < |r| && photos[k].id == id ==>
      r[k].category == category && r[k].isCustomCategory == isCustom
    ensures forall k :: 0 <= k < |r| && photos[k].id != id ==> r[k] == photos[k]
  {
    seq(|photos|, k requires 0 <= k < |photos| =>
      if photos[k].id == id then photos[k].(category := category, isCustomCategory := isCustom) else photos[k])
  }

  /** Recategorising an id that is not in the list changes nothing. */
  lemma UpdateUnknownIdIsNoOp(photos: seq<Photo>, id: string, category: string, isCustom: bool)
    requires !HasId(photos, id)
    ensures UpdateAll(photos, id, category, isCustom) == photos
  {
    var r := UpdateAll(photos, id, category, isCustom);
    forall k | 0 <= k < |r| ensures r[k] == photos[k] {
      assert photos[k].id != id;
    }
  }

  /** Recategorising twice with the same arguments is the same as once. */
  lemma UpdateIdempotent(photos: seq<Photo>, id: string, category: string, isCustom: bool)
    ensures UpdateAll(UpdateAll(photos, id, category, isCustom), id, category, isCustom)
         == UpdateAll(photos, id, category, isCustom)
  {
  }

  // ---------------------------------------------------------------------------------------
  // Remove

  /** `prev.filter(p => p.id !== id)`. */
  function Without(photos: seq<Photo>, id: string): (r: seq<Photo>)
    ensures |r| <= |photos|
  {
    if photos == [] then []
    else if photos[0].id == id then Without(photos[1..], id)
    else [photos[0]] + Without(photos[1..], id)
  }

  /** What stays is exactly the photos whose id differs from the removed one. */
  lemma {:induction false} WithoutMembers(photos: seq<Photo>, id: string)
    ensures forall p :: p in Without(photos, id) <==> p in photos && p.id != id
    decreases |photos|
  {
    if photos != [] {
      WithoutMembers(photos[1..], id);
      assert photos == [photos[0]] + photos[1..];
    }
  }

  /** `prev.find(p => p.id === id)`: the first photo with the id, whose URL is revoked. */
  function FirstWithId(photos: seq<Photo>, id: string): (r: Option<Photo>)
    ensures r.None? <==> !HasId(photos, id)
    ensures r.Some? ==> r.value in photos && r.value.id == id
  {
    if photos == [] then None
    else if photos[0].id == id then Some(photos[0])
    else
      var r := FirstWithId(photos[1..], id);
      assert HasId(photos, id) ==> photos[0].id == id || HasId(photos[1..], id) by {
        if HasId(photos, id) && photos[0].id != id {
          var k :| 0 <= k < |photos| && photos[k].id == id;
          assert photos[1..][k - 1].id == id;
        }
      }
      r
  }

  /** `find` returns the FIRST photo with the id: every photo before it has another id. */
  lemma {:induction false} FirstWithIdIsFirst(photos: seq<Photo>, id: string) returns (k: nat)
    requires HasId(photos, id)
    ensures k < |photos| && photos[k].id == id && FirstWithId(photos, id) == Some(photos[k])
    ensures forall j :: 0 <= j < k ==> photos[j].id != id
    decreases |photos|
  {
    if photos[0].id == id {
      k := 0;
    } else {
      var k' := FirstWithIdIsFirst(photos[1..], id);
      k := k' + 1;
      forall j | 0 <= j < k ensures photos[j].id != id {
        if j > 0 { assert photos[j] == photos[1..][j - 1]; }
      }
    }
  }

  /** Removing filters each part of a list separately: the photos that stay keep their order. */
  lemma {:induction false} WithoutAppend(a: seq<Photo>, b: seq<Photo>, id: string)
    ensures Without(a + b, id) == Without(a, id) + Without(b, id)
    decreases |a|
  {
    if a != [] {
      assert (a + b)[1..] == a[1..] + b;
      WithoutAppend(a[1..], b, id);
    } else {
      assert a + b == b;
    }
  }

  /** Removing an id that is not in the list changes nothing. */
  lemma {:induction false} WithoutUnknownIdIsNoOp(photos: seq<Photo>, id: string)
    requires !HasId(photos, id)
    ensures Without(photos, id) == photos
    decreases |photos|
  {
    if photos != [] {
      assert photos[0].id != id;
      WithoutUnknownIdIsNoOp(photos[1..], id);
      assert photos == [photos[0]] + photos[1..];
    }
  }

  /** With unique ids, removing a present id removes exactly one photo, and what stays is the
      list with that photo cut out. */
  lemma {:induction false} WithoutRemovesOne(photos: seq<Photo>, id: string, k: nat)
    requires UniqueIds(photos)
    requires k < |photos| && photos[k].id == id
    ensures Without(photos, id) == photos[..k] + photos[k + 1..]
    decreases |photos|
  {
    if k == 0 {
      WithoutUnknownIdIsNoOp(photos[1..], id);
    } else {
      assert photos[0].id != id by { assert photos[0].id != photos[k].id; }
      var rest := photos[1..];
      assert UniqueIds(rest) by {
        forall i, j | 0 <= i < j < |rest| ensures rest[i].id != rest[j].id {
          assert rest[i] == photos[i + 1] && rest[j] == photos[j + 1];
        }
      }
      assert rest[k - 1] == photos[k];
      WithoutRemovesOne(rest, id, k - 1);
      assert photos[..k] == [photos[0]] + rest[..k - 1];
      assert photos[k + 1..] == rest[k..];
    }
  }

  lemma TailOfUnique(photos: seq<Photo>)
    requires UniqueIds(photos) && photos != []
    ensures UniqueIds(photos[1..])
    ensures forall p :: p in photos[1..] ==> p.id != photos[0].id
  {
    var rest := photos[1..];
    forall i, j | 0 <= i < j < |rest| ensures rest[i].id != rest[j].id {
      assert rest[i] == photos[i + 1] && rest[j] == photos[j + 1];
    }
    forall p | p in rest ensures p.id != photos[0].id {
      var m :| 0 <= m < |rest| && rest[m] == p;
      assert photos[m + 1] == p;
    }
  }

  /** Removing keeps the ids unique. */
  lemma {:induction false} WithoutKeepsIdsUnique(photos: seq<Photo>, id: string)
    requires UniqueIds(photos)
    ensures UniqueIds(Without(photos, id))
    decreases |photos|
  {
    if photos != [] {
      var rest := photos[1..];
      TailOfUnique(photos);
      WithoutKeepsIdsUnique(rest, id);
      if photos[0].id != id {
        var tail := Without(rest, id);
        var r := [photos[0]] + tail;
        assert Without(photos, id) == r;
        forall i, j | 0 <= i < j < |r| ensures r[i].id != r[j].id {
          assert r[j] == tail[j - 1];
          if i == 0 {
            WithoutMembers(rest, id);
            assert tail[j - 1] in rest;
          } else {
            assert r[i] == tail[i - 1];
          }
        }
      }
    }
  }

  // ---------------------------------------------------------------------------------------
  // Drag reorder

  function RemoveAt(s: seq<Photo>, i: nat): (r: seq<Photo>)
    requires i < |s|
    ensures |r| == |s| - 1
  {
    s[..i] + s[i + 1..]
  }

  function InsertAt(s: seq<Photo>, i: nat, x: Photo): (r: seq<Photo>)
    requires i <= |s|
    ensures |r| == |s| + 1
  {
    s[..i] + [x] + s[i..]
  }

  /** The body of `handleDragEnter`: `splice(from, 1)` then `splice(to, 0, dragged)`. The photo
      at `from` ends up at `to`; taking it out again leaves the others in their old order; the
      list is a permutation of the old one. */
  function Move(s: seq<Photo>, from: nat, to: nat): (r: seq<Photo>)
    requires from < |s| && to < |s|
    ensures |r| == |s|
    ensures r[to] == s[from]
    ensures RemoveAt(r, to) == RemoveAt(s, from)
    ensures multiset(r) == multiset(s)
  {
    var rest := RemoveAt(s, from);
    var r := InsertAt(rest, to, s[from]);
    assert r[..to] + r[to + 1..] == rest;
    assert s == s[..from] + [s[from]] + s[from + 1..];
    assert r == rest[..to] + [s[from]] + rest[to..];
    assert rest == rest[..to] + rest[to..];
    calc {
      multiset(r);
      multiset(rest[..to]) + multiset([s[from]]) + multiset(rest[to..]);
      multiset(rest) + multiset([s[from]]);
      multiset(s[..from]) + multiset(s[from + 1..]) + multiset([s[from]]);
      multiset(s[..from] + [s[from]] + s[from + 1..]);
      multiset(s);
    }
    r
  }

  /** Where the photo at position `k` after `Move(s, from, to)` was before it. */
  function MoveSource(from: nat, to: nat, k: nat): nat
  {
    if k == to then from
    else if from < to && from <= k < to then k + 1
    else if to < from && to < k <= from then k - 1
    else k
  }

  /** Element by element: position `k` after the move holds the photo from `MoveSource`, so
      the photos between the two positions shift by one and all others stay put. */
  lemma MoveAt(s: seq<Photo>, from: nat, to: nat, k: nat)
    requires from < |s| && to < |s| && k < |s|
    ensures MoveSource(from, to, k) < |s|
    ensures Move(s, from, to)[k] == s[MoveSource(from, to, k)]
  {
    var r := Move(s, from, to);
    var rest := RemoveAt(s, from);
    if k < to {
      assert r[k] == rest[k];
    } else if k > to {
      assert r[k] == rest[k - 1];
    }
  }

  /** Moving to where it already is changes nothing. */
  lemma MoveToSelf(s: seq<Photo>, i: nat)
    requires i < |s|
    ensures Move(s, i, i) == s
  {
    assert s == s[..i] + [s[i]] + s[i + 1..];
  }

  /** Two moves of the same photo are one move from the first place to the last. */
  lemma MoveCompose(s: seq<Photo>, a: nat, b: nat, c: nat)
    requires a < |s| && b < |s| && c < |s|
    ensures Move(Move(s, a, b), b, c) == Move(s, a, c)
  {
  }

  /** Moving back undoes a move. */
  lemma MoveInverse(s: seq<Photo>, a: nat, b: nat)
    requires a < |s| && b < |s|
    ensures Move(Move(s, a, b), b, a) == s
  {
    MoveCompose(s, a, b, a);
    MoveToSelf(s, a);
  }

  /** A move keeps the ids unique. */
  lemma MoveKeepsIdsUnique(s: seq<Photo>, from: nat, to: nat)
    requires from < |s| && to < |s| && UniqueIds(s)
    ensures UniqueIds(Move(s, from, to))
  {
    var r := Move(s, from, to);
    forall i, j | 0 <= i < j < |r| ensures r[i].id != r[j].id {
      MoveAt(s, from, to, i);
      MoveAt(s, from, to, j);
      var si, sj := MoveSource(from, to, i), MoveSource(from, to, j);
      assert si != sj;
      if si < sj { assert s[si].id != s[sj].id; } else { assert s[sj].id != s[si].id; }
    }
  }

  /** `handleDragEnter` on the list and the drag cursor: nothing while no drag is active or when
      the cursor is already on `index`; otherwise move and follow with the cursor. */
  function DragEnter(s: seq<Photo>, cursor: Option<nat>, index: nat): (r: (seq<Photo>, Option<nat>))
    requires index < |s| && (cursor.Some? ==> cursor.value < |s|)
    ensures |r.0| == |s| && (r.1.Some? ==> r.1.value < |s|)
  {
    if cursor.None? || cursor.value == index then (s, cursor)
    else (Move(s, cursor.value, index), Some(index))
  }

  /** A whole drag gesture: the drag-enter events over the cards, in order. */
  function DragEnters(s: seq<Photo>, cursor: Option<nat>, targets: seq<nat>): (seq<Photo>, Option<nat>)
    requires cursor.Some? ==> cursor.value < |s|
    requires forall t :: t in targets ==> t < |s|
    decreases |targets|
  {
    if targets == [] then (s, cursor)
    else
      assert targets[0] in targets;
      var (s', c') := DragEnter(s, cursor, targets[0]);
      assert forall t :: t in targets[1..] ==> t in targets;
      DragEnters(s', c', targets[1..])
  }

  /** However the drag wanders over the cards, a gesture started at `from` amounts to one move of the
      dragged photo from `from` to where the cursor ends up. */
  lemma {:induction false} DragGestureIsOneMove(s: seq<Photo>, from: nat, targets: seq<nat>)
    requires from < |s|
    requires forall t :: t in targets ==> t < |s|
    ensures var (s', c') := DragEnters(s, Some(from), targets);
      c'.Some? && c'.value < |s| && s' == Move(s, from, c'.value)
    ensures DragEnters(s, Some(from), targets).1 == Some(if targets == [] then from else targets[|targets| - 1])
    decreases |targets|
  {
    if targets == [] {
      MoveToSelf(s, from);
    } else {
      var t := targets[0];
      assert t in targets;
      assert forall u :: u in targets[1..] ==> u in targets;
      if t == from {
        DragGestureIsOneMove(s, from, targets[1..]);
      } else {
        var s1 := Move(s, from, t);
        DragGestureIsOneMove(s1, t, targets[1..]);
        var (s', c') := DragEnters(s1, Some(t), targets[1..]);
        MoveCompose(s, from, t, c'.value);
      }
    }
  }

  // ---------------------------------------------------------------------------------------
  // Card events

  /** What the card callbacks do to the list: `updateCategory` or `removePhoto`. */
  function Dispatch(photos: seq<Photo>, action: PhotoCard.CardAction): seq<Photo>
  {
    match action
    case UpdateCategory(id, category, isCustom) => UpdateAll(photos, id, category, isCustom)
    case Remove(id) => Without(photos, id)
  }

  /** Switching a photo to custom entry, typing, and going back to the menu leaves it on the
      first preset category with the custom flag off, and touches no other photo. */
  lemma CustomThenBackToMenu(photos: seq<Photo>, i: nat, text: string)
    requires UniqueIds(photos) && i < |photos| && !photos[i].isCustomCategory
    ensures var s1 := Dispatch(photos, PhotoCard.OnEvent(photos[i], PhotoCard.MenuChanged(PhotoCard.CUSTOM_OPTION)).value);
      var s2 := Dispatch(s1, PhotoCard.OnEvent(s1[i], PhotoCard.CustomTextChanged(text)).value);
      var s3 := Dispatch(s2, PhotoCard.OnEvent(s2[i], PhotoCard.BackToMenuClicked).value);
      && |s3| == |photos|
      && s3[i] == photos[i].(category := DEFAULT_CATEGORIES[0], isCustomCategory := false)
      && (forall k :: 0 <= k < |s3| && k != i ==> s3[k] == photos[k])
  {
    var id := photos[i].id;
    var s1 := UpdateAll(photos, id, "", true);
    var s2 := UpdateAll(s1, id, text, true);
    var s3 := UpdateAll(s2, id, DEFAULT_CATEGORIES[0], false);
    forall k | 0 <= k < |photos| && k != i ensures s3[k] == photos[k] {
      if k < i { assert photos[k].id != photos[i].id; } else { assert photos[i].id != photos[k].id; }
    }
  }

  // ---------------------------------------------------------------------------------------
  // Download

  /** The filename handed to the PDF writer: `customFilename.trim() || default`, then `.pdf`
      added unless the lower-cased name already ends with it. */
  function ExportFilename(custom: string): string
  {
    var trimmed := Trim(custom);
    var name := if trimmed != [] then trimmed else DEFAULT_FILENAME;
    if EndsWith(ToLower(name), PDF_SUFFIX) then name else name + PDF_SUFFIX
  }

  /** The filename is never blank, carries no surrounding whitespace and ends in `.pdf` in some
      letter case: blank input gives the default name, a name already ending in `.pdf` in any
      case is kept as typed (trimmed), and any other name gets `.pdf` added. */
  lemma ExportFilenameSpec(custom: string)
    ensures ExportFilename(custom) != [] && IsTrimmed(ExportFilename(custom))
    ensures EndsWith(ToLower(ExportFilename(custom)), PDF_SUFFIX)
    ensures Trim(custom) == [] ==> ExportFilename(custom) == DEFAULT_FILENAME + PDF_SUFFIX
    ensures Trim(custom) != [] && EndsWith(ToLower(Trim(custom)), PDF_SUFFIX) ==>
              ExportFilename(custom) == Trim(custom)
    ensures Trim(custom) != [] && !EndsWith(ToLower(Trim(custom)), PDF_SUFFIX) ==>
              ExportFilename(custom) == Trim(custom) + PDF_SUFFIX
  {
    var trimmed := Trim(custom);
    var name := if trimmed != [] then trimmed else DEFAULT_FILENAME;
    assert name != [] && IsTrimmed(name);
    if !EndsWith(ToLower(name), PDF_SUFFIX) {
      SuffixKeepsTrimmed(name);
      SuffixEndsWith(name);
    }
  }

  lemma SuffixKeepsTrimmed(name: string)
    requires name != [] && IsTrimmed(name)
    ensures IsTrimmed(name + PDF_SUFFIX)
  {
    var r := name + PDF_SUFFIX;
    assert r[0] == name[0];
    assert r[|r| - 1] == 'f';
  }

  lemma SuffixEndsWith(name: string)
    ensures EndsWith(ToLower(name + PDF_SUFFIX), PDF_SUFFIX)
  {
    ToLowerAppend(name, PDF_SUFFIX);
    var l := ToLower(name);
    assert ToLower(PDF_SUFFIX) == PDF_SUFFIX;
    assert (l + PDF_SUFFIX)[|l|..] == PDF_SUFFIX;
  }

  /** Normalising a normalised filename changes nothing. */
  lemma ExportFilenameIdempotent(custom: string)
    ensures ExportFilename(ExportFilename(custom)) == ExportFilename(custom)
  {
    ExportFilenameSpec(custom);
    ExportFilenameSpec(ExportFilename(custom));
  }

  /** Blank input, whitespace of any kind and length or nothing at all, gets the default name. */
  lemma ExportFilenameBlank(custom: string)
    requires AllWhitespace(custom)
    ensures ExportFilename(custom) == "家訪照片紀錄.pdf"
  {
    var l := ToLower(DEFAULT_FILENAME);
    assert l[2..][3] == l[5] == '錄';
    assert !EndsWith(l, PDF_SUFFIX);
    assert Trim(custom) == [];
    assert ExportFilename(custom) == DEFAULT_FILENAME + PDF_SUFFIX;
  }

  /** The preview URLs of the photos, in list order. */
  function PreviewUrls(photos: seq<Photo>): (r: seq<string>)
    ensures |r| == |photos| && forall k :: 0 <= k < |r| ==> r[k] == photos[k].previewUrl
  {
    seq(|photos|, k requires 0 <= k < |photos| => photos[k].previewUrl)
  }

  /** What the download asks the PDF writer for. */
  datatype ExportRequest = ExportRequest(filename: string, mode: LayoutMode)

  // ---------------------------------------------------------------------------------------
  // Session state

  class AppState {
    var layoutMode: Option<LayoutMode>
    var photos: seq<Photo>
    var isProcessing: bool
    var isGenerating: bool
    var showPreviewModal: bool
    var error: Option<string>
    var uploaderKey: int
    /** The drag cursor and the unused drag-over slot. */
    var dragItem: Option<nat>
    var dragOverItem: Option<nat>
    /** Every preview URL handed to `URL.revokeObjectURL`, in order. */
    var revokedUrls: seq<string>

    ghost predicate Valid()
      reads this
    {
      |photos| <= MAX_PHOTOS
    }

    /** The initial state: no layout chosen, no photos, nothing in progress. */
    constructor ()
      ensures Valid()
      ensures layoutMode == None && photos == [] && error == None && uploaderKey == 0
      ensures !isProcessing && !isGenerating && !showPreviewModal
      ensures dragItem == None && dragOverItem == None && revokedUrls == []
    {
      layoutMode, photos, error, uploaderKey := None, [], None, 0;
      isProcessing, isGenerating, showPreviewModal := false, false, false;
      dragItem, dragOverItem, revokedUrls := None, None, [];
    }

    /** A button of the selection screen. */
    method ChooseLayout(mode: LayoutMode)
      modifies this`layoutMode
      ensures layoutMode == Some(mode)
    {
      layoutMode := Some(mode);
    }

    /** `handleUpload(fileList)`, the conversions, ids and preview URLs given by oracles. A null
        list does nothing; otherwise the list and error become those of `Upload`, and the
        processing flag is down again at the end. */
    method HandleUpload(fileList: Option<seq<File>>, convert: File -> ConvertOutcome,
                        ids: nat -> string, urls: nat -> string)
      requires Valid()
      modifies this`photos, this`error, this`isProcessing
      ensures Valid()
      ensures fileList.None? ==>
        photos == old(photos) && error == old(error) && isProcessing == old(isProcessing)
      ensures fileList.Some? ==>
        (photos, error) == Upload(old(photos), fileList.value, convert, ids, urls) && !isProcessing
      ensures fileList.Some? && UniqueIds(old(photos)) && FreshIds(ids, |fileList.value|, old(photos)) ==>
        UniqueIds(photos)
    {
      if fileList.None? {
        return;
      }
      var newFiles := fileList.value;
      error := None;
      var availableSlots := MAX_PHOTOS - |photos|;
      if |newFiles| > availableSlots {
        error := Some(CapacityWarning(availableSlots));
      }
      var filesToProcess := FilesToProcess(newFiles, availableSlots);
      isProcessing := true;
      match ProcessBatch(filesToProcess, convert) {
        case Ok(processed) =>
          photos := photos + NewPhotos(processed, ids, urls);
        case Err(_) =>
          error := Some(PROCESSING_ERROR);
      }
      isProcessing := false;
      assert (photos, error) == Upload(old(photos), newFiles, convert, ids, urls);
      UploadWithinCapacity(old(photos), newFiles, convert, ids, urls);
      if UniqueIds(old(photos)) && FreshIds(ids, |newFiles|, old(photos)) {
        UploadKeepsIdsUnique(old(photos), newFiles, convert, ids, urls);
      }
    }

    /** `updateCategory(id, category, isCustom)`. */
    method UpdateCategory(id: string, category: string, isCustom: bool)
      requires Valid()
      modifies this`photos
      ensures Valid()
      ensures photos == UpdateAll(old(photos), id, category, isCustom)
      ensures UniqueIds(old(photos)) ==> UniqueIds(photos)
    {
      photos := UpdateAll(photos, id, category, isCustom);
    }

    /** `removePhoto(id)`: the first photo with the id has its URL revoked, and every photo with
        the id leaves the list. */
    method RemovePhoto(id: string)
      requires Valid()
      modifies this`photos, this`revokedUrls
      ensures Valid()
      ensures photos == Without(old(photos), id)
      ensures revokedUrls == old(revokedUrls) +
        (var target := FirstWithId(old(photos), id); if target.Some? then [target.value.previewUrl] else [])
      ensures UniqueIds(old(photos)) ==> UniqueIds(photos)
    {
      var target := FirstWithId(photos, id);
      if target.Some? {
        revokedUrls := revokedUrls + [target.value.previewUrl];
      }
      if UniqueIds(photos) {
        WithoutKeepsIdsUnique(photos, id);
      }
      photos := Without(photos, id);
    }

    /** `resetAll()`: every preview URL is revoked, the list and the error are cleared, the
        layout is unchosen and the uploader is remounted with a new key. */
    method ResetAll()
      requires Valid()
      modifies this`photos, this`revokedUrls, this`error, this`layoutMode, this`uploaderKey
      ensures Valid()
      ensures photos == [] && error == None && layoutMode == None
      ensures uploaderKey == old(uploaderKey) + 1
      ensures revokedUrls == old(revokedUrls) + PreviewUrls(old(photos))
    {
      revokedUrls := revokedUrls + PreviewUrls(photos);
      photos := [];
      error := None;
      layoutMode := None;
      uploaderKey := uploaderKey + 1;
    }

    /** `handleDragStart(index)`: the drag cursor starts on the grabbed card. */
    method HandleDragStart(index: nat)
      modifies this`dragItem
      ensures dragItem == Some(index)
    {
      dragItem := Some(index);
    }

    /** `handleDragEnter(index)`: both `index` and the cursor are positions of rendered cards. */
    method HandleDragEnter(index: nat)
      requires Valid()
      requires index < |photos| && (dragItem.Some? ==> dragItem.value < |photos|)
      modifies this`photos, this`dragItem
      ensures Valid()
      ensures (photos, dragItem) == DragEnter(old(photos), old(dragItem), index)
      ensures UniqueIds(old(photos)) ==> UniqueIds(photos)
    {
      if dragItem.None? || dragItem.value == index {
        return;
      }
      if UniqueIds(photos) {
        MoveKeepsIdsUnique(photos, dragItem.value, index);
      }
      photos := Move(photos, dragItem.value, index);
      dragItem := Some(index);
    }

    /** `handleDragEnd()`: the drag is over. */
    method HandleDragEnd()
      modifies this`dragItem, this`dragOverItem
      ensures dragItem == None && dragOverItem == None
    {
      dragItem, dragOverItem := None, None;
    }

    /** The preview button: disabled while there are no photos or work is in progress. */
    method OpenPreview()
      modifies this`showPreviewModal
      ensures showPreviewModal == (old(showPreviewModal) || (|photos| > 0 && !isProcessing && !isGenerating))
    {
      if |photos| > 0 && !isProcessing && !isGenerating {
        showPreviewModal := true;
      }
    }

    /** The modal's close buttons. */
    method ClosePreview()
      modifies this`showPreviewModal
      ensures !showPreviewModal
    {
      showPreviewModal := false;
    }

    /** `handleDownloadPdf(customFilename)`, with `exportSucceeds` standing for whether the PDF
        writer finished. Without photos or a layout it does nothing; otherwise it asks for the
        normalised filename in the session's orientation, closes the modal on success, reports
        the export error on failure, and ends with the generating flag down. */
    method HandleDownloadPdf(customFilename: string, exportSucceeds: bool) returns (request: Option<ExportRequest>)
      modifies this`isGenerating, this`showPreviewModal, this`error
      ensures |photos| == 0 || layoutMode.None? ==>
        request.None? && isGenerating == old(isGenerating) &&
        showPreviewModal == old(showPreviewModal) && error == old(error)
      ensures |photos| > 0 && layoutMode.Some? ==>
        && request == Some(ExportRequest(ExportFilename(customFilename), layoutMode.value))
        && !isGenerating
        && (exportSucceeds ==> !showPreviewModal && error == old(error))
        && (!exportSucceeds ==> showPreviewModal == old(showPreviewModal) && error == Some(EXPORT_ERROR))
    {
      if |photos| == 0 || layoutMode.None? {
        return None;
      }
      var filename := ExportFilename(customFilename);
      isGenerating := true;
      request := Some(ExportRequest(filename, layoutMode.value));
      if exportSucceeds {
        showPreviewModal := false;
      } else {
        error := Some(EXPORT_ERROR);
      }
      isGenerating := false;
    }
  }
}
