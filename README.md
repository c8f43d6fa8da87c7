# HomeVisit-helper, modelled in Dafny

HomeVisit-helper is a single-page tool for documenting home visits. The user chooses a page orientation
(portrait or landscape) and uploads up to ten photos of a home visit; HEIC photos are converted
to JPEG. The user gives each photo a room category from a preset menu or as free text, and
reorders the photos by dragging. The tool then lays the photos out four to an A4 page, under a
header "家訪照片紀錄" with a "第 X 頁，共 Y 頁" page label, and exports the pages as a PDF.

This project models the logic behind that flow:

- the session controller, as the class `App.AppState`. Its fields are the React state of `App`.
  Its methods are the handlers: upload, recategorise, remove, drag start/enter/end, reset,
  open/close preview and download. Each list change is specified by a pure function of the old
  list (`Upload`, `UpdateAll`, `Without`, `Move`, `DragEnter`, `ExportFilename`). The properties
  are proved about those functions.
- the pagination loop shared by the export container and the preview modal, as the method
  `PdfPreview.Paginate`. It is proved equal to the reference `Pages`, and proved to lose,
  duplicate and reorder nothing.
- the page layout arithmetic and markup content of one page (`PdfPage`): size, content area,
  header placement, page label, and one cell per photo with its caption.
- the preview modal: its page list, its summary line and its filename state (`PreviewModal`).
- the uploader's guards and status texts (`PhotoUploader`).
- the photo card's event rules: which event raises which callback in which mode (`PhotoCard`).
- `processImageFile`: HEIC detection, the anchored case-insensitive rename, and the three answers
  of the converter (`ImageUtils`). The HEIC decoder is an oracle, passed in as a parameter.
- the shared record and constants (`Types`). JavaScript's `trim`, `toLowerCase`, `endsWith` and
  decimal rendering are in `Text`.

The oracles are these. They are parameters of the operations that use them:

- the converter's outcome per file, `convert: File -> ConvertOutcome`;
- the id generator (`Math.random`), `ids: nat -> string`;
- the object-URL factory (`URL.createObjectURL`), `urls: nat -> string`;
- whether the PDF writer succeeds, `exportSucceeds`.

The spread `Promise.all` is taken file by file. Its outcome is the same: all files processed,
or the batch fails.

Notes on where the model follows the code rather than the documentation:

- A short last page is drawn with only its photos. No placeholder cells are drawn for its empty
  slots (`PdfPage.Cells`).
- The capacity warning is set before processing. A processing failure then replaces it.
- Typing in a custom category can leave it empty. The page then captions it "未分類".
- `PdfPage` computes `contentWidth` and `contentHeight`, but the markup never reads them.
  In landscape the header height is taken off the height, although the header band sits on the
  left. The model keeps the arithmetic as written (`PdfPage.ContentArea`).
- A converter that answers with an empty array makes the code build a file from `undefined`.
  The model gives that file the bytes of the text "undefined" (`ImageUtils.ConvertedBytes`).

## Model

| member | source | states |
|---|---|---|
| `Types.DefaultCategoriesShape` | types.ts:10-21 | The preset menu has ten distinct entries, and the first one is "客廳". |
| `Text.TrimStart` | App.tsx:127 | The result is a suffix of the input, everything dropped is whitespace, and the result does not start with whitespace. |
| `Text.TrimEnd` | App.tsx:127 | The result is a prefix of the input, everything dropped is whitespace, and the result does not end with whitespace. |
| `Text.Trim` | App.tsx:127 | The result has no whitespace at either end. It is empty exactly when the input is all whitespace. An already trimmed input comes back unchanged. |
| `Text.TrimKeepsMiddle` | App.tsx:127 | The result is exactly the slice of the input between a run of leading whitespace and a run of trailing whitespace. |
| `Text.LowerChar` | App.tsx:128 | An ASCII capital maps to its own lower-case letter, the code point 32 higher. Every other character is unchanged. |
| `Text.ToLower` | App.tsx:128 | Lower-casing keeps the length and folds each character on its own. |
| `Text.ToLowerAppend` | App.tsx:128 | Lower-casing distributes over concatenation. |
| `Text.DigitChar` | components/PdfPage.tsx:43 | A digit value renders as a decimal digit character. |
| `Text.Decimal` | components/PdfPage.tsx:43 | A number renders as a non-empty run of digits, with a leading zero only for zero itself. |
| `Text.DecimalRoundTrip` | components/PdfPage.tsx:43 | Reading the rendered digits back gives the number. |
| `Text.DecimalInjective` | components/PdfPage.tsx:43 | Different numbers render differently. |
| `Text.DigitRunSplit` | components/PdfPage.tsx:43 | A digit run followed by a non-digit splits one way only, so a rendered number is read off a label unambiguously. |
| `ImageUtils.RenameHeic` | services/imageUtils.ts:21 | Exactly a final `.heic` in any letter case becomes `.jpg`. This happens exactly when the lower-cased name ends in `.heic`; any other name is unchanged. |
| `ImageUtils.RenameHeicLeavesNoHeicName` | services/imageUtils.ts:5-21 | After the rename, the name no longer marks the file as HEIC. |
| `ImageUtils.ProcessImageFile` | services/imageUtils.ts:3-29 | A non-HEIC file passes through unchanged. A failed conversion is an error whose message ends with the file name. A successful one gives an `image/jpeg` file with the renamed name. Its bytes are the converter's blob, the first blob of an array, or the text "undefined" for an empty array. No successful result is HEIC. |
| `ImageUtils.ProcessIdempotent` | services/imageUtils.ts:3-29 | Processing an already processed file changes nothing. |
| `PdfPage.PageSize` | components/PdfPage.tsx:15-17 | Portrait is taller than wide, landscape wider than tall, and both use the two A4 sides, 794 and 1123 px. |
| `PdfPage.LandscapeIsTurnedPortrait` | components/PdfPage.tsx:4-17 | The landscape page is the portrait page with width and height swapped. |
| `PdfPage.ContentArea` | components/PdfPage.tsx:20-24 | The content area is the page less 40 px padding on each side, and less the 60 px header on the height. Both sides stay positive. |
| `PdfPage.CommonPrefix` | components/PdfPage.tsx:43 | Equal strings with a common prefix have equal remainders. |
| `PdfPage.PageLabelInjective` | components/PdfPage.tsx:43 | The "第 X 頁，共 Y 頁" label determines both the page index and the page count. |
| `PdfPage.CategoryLabel` | components/PdfPage.tsx:74 | A caption is never empty: it is the category, or "未分類" for an empty one. |
| `PdfPage.CellAspect` | components/PdfPage.tsx:64 | A cell is 3:4 or 4:3 and has the orientation of its page. |
| `PdfPage.Cells` | components/PdfPage.tsx:61-78 | There is one cell per photo, in order. Each cell carries the photo's id, preview URL, caption and the mode's shape. |
| `PdfPage.CellsAppend` | components/PdfPage.tsx:61-78 | The cells of two runs of photos are the two runs of cells. |
| `PdfPage.Render` | components/PdfPage.tsx:14-84 | A page has the orientation's size and content area. Its header is on top in portrait and on the left in landscape. It carries the report title, the page label and the cells of its photos. |
| `PdfPreview.PageCount` | components/PdfPreview.tsx:14-16 | The page count is the least number of four-photo pages that hold the photos. It is zero only for no photos. |
| `PdfPreview.Paginate` | components/PdfPreview.tsx:14-16 | The loop yields PageCount pages, page k is the k-th slice of four clamped at the end, and the result equals `Pages`. Concatenated, the pages give back the photo list. |
| `PdfPreview.PagesCons` | components/PdfPreview.tsx:14-16 | The pages of a list longer than a page are its first four photos followed by the pages of the rest. |
| `PdfPreview.PagesFlatten` | components/PdfPreview.tsx:14-16 | Concatenating the pages in order gives back the photo list exactly. |
| `PdfPreview.PageSizes` | components/PdfPreview.tsx:14-16 | Every page but the last is full; the last holds one to four photos. |
| `PdfPreview.ContainerWidth` | components/PdfPreview.tsx:18 | The container is one page wide. |
| `PdfPreview.PageViews` | components/PdfPreview.tsx:30-38 | Page k is drawn from the k-th slice with index k and the page count as total. |
| `PdfPreview.CellsFlatten` | components/PdfPreview.tsx:30-38 | Drawing pages and then concatenating their cells equals drawing the concatenated photos. |
| `PdfPreview.ReportCellsFollowPhotos` | components/PdfPreview.tsx:14-38 | Read page by page, the report shows one cell per photo in list order, with nothing dropped, duplicated or moved. |
| `PdfPreview.RenderPreview` | components/PdfPreview.tsx:11-41 | The container is one page wide. Each page carries its own label and at most four cells. The cells follow the photo list. |
| `PreviewModal.Render` | components/PreviewModal.tsx:27-101 | Nothing is shown when closed. When open, it shows the same pages as the export, the page count in the summary, and the orientation's page size. |
| `PreviewModal.Modal.constructor` | components/PreviewModal.tsx:24 | The filename starts empty. |
| `PreviewModal.Modal.OnOpenChanged` | components/PreviewModal.tsx:32-55 | Opening clears the filename; closing keeps it. |
| `PreviewModal.Modal.EditFilename` | components/PreviewModal.tsx:110-116 | While no PDF is being generated, the field holds what was typed. While one is, the field is disabled and keeps its text. |
| `PreviewModal.Modal.Confirm` | components/PreviewModal.tsx:130-131 | Confirming is possible exactly when no PDF is being generated, and hands over the typed filename as it is. |
| `PhotoUploader.Remaining` | components/PhotoUploader.tsx:38 | The photos held and the places left add up to the limit. There is no place left exactly when the limit is reached. |
| `PhotoUploader.Accepts` | components/PhotoUploader.tsx:14-36 | The handlers' guard passes files on exactly when the uploader is enabled. |
| `PhotoUploader.HandleDrop` | components/PhotoUploader.tsx:14-22 | A drop is forwarded, unchanged, exactly below the limit and when nothing is processing. |
| `PhotoUploader.Headline` | components/PhotoUploader.tsx:67 | Processing wins over the limit, which wins over the upload prompt. |
| `PhotoUploader.Detail` | components/PhotoUploader.tsx:70-72 | While disabled, the detail line names the limit. Otherwise it names a positive number of places left. |
| `PhotoUploader.FileInput.constructor` | components/PhotoUploader.tsx:51-59 | The input starts empty. |
| `PhotoUploader.FileInput.HandleChange` | components/PhotoUploader.tsx:29-36 | A pick is forwarded exactly when accepted, and the input is then cleared. A refused pick leaves it as it was. |
| `PhotoCard.OnEvent` | components/PhotoCard.tsx:59-103 | Remove always fires for the card's own id. The menu works only in preset mode: "custom" switches to custom entry with an empty text, and any other value sets it as a preset. Typing and back-to-menu work only in custom mode, and back-to-menu restores the first preset. The custom flag is set exactly by typing or by choosing "custom". |
| `PhotoCard.AspectClass` | components/PhotoCard.tsx:27 | The card's picture has the same shape as the photo's cell on the page. |
| `App.FilesToProcess` | App.tsx:45 | The batch is cut to its first `slots` files, or all of them when fewer. |
| `App.ProcessBatch` | App.tsx:50-52 | The batch succeeds exactly when every file processes. It then yields each file's processed version, in order. |
| `App.NewPhotos` | App.tsx:54-61 | The k-th new photo has the k-th oracle id and URL, the k-th processed file, the first preset category, and is not custom. |
| `App.UploadWithinCapacity` | App.tsx:38-63 | An upload never takes the list past ten photos, and keeps the existing photos as they were, in front. |
| `App.UploadSuccess` | App.tsx:38-63 | On success, exactly the kept files are appended after the old list, in batch order, each new photo as `NewPhotos` builds it. |
| `App.UploadWarning` | App.tsx:39-43 | On success, the capacity warning is shown exactly when the batch was larger than the places left, and names the places left. |
| `App.UploadFailureIsAllOrNothing` | App.tsx:48-66 | If any kept file fails, the list is unchanged and the processing error is shown. |
| `App.UploadKeepsIdsUnique` | App.tsx:54-63 | With fresh ids from the oracle, an upload keeps the ids unique. |
| `App.AppendFreshKeepsIdsUnique` | App.tsx:54-63 | Appending photos that carry the oracle's first fresh ids to a list with unique ids keeps them unique. |
| `App.UpdateAll` | App.tsx:72-76 | Every photo with the id gets the new category and flag. Every other photo is unchanged. Ids, files and URLs are untouched. |
| `App.UpdateUnknownIdIsNoOp` | App.tsx:72-76 | Recategorising an absent id changes nothing. |
| `App.UpdateIdempotent` | App.tsx:72-76 | Recategorising twice with the same arguments is the same as once. |
| `App.Without` | App.tsx:88 | Filtering never lengthens the list. |
| `App.WithoutMembers` | App.tsx:88 | What stays is exactly the photos whose id differs from the removed one. |
| `App.FirstWithId` | App.tsx:84 | `find` finds a photo exactly when the id is present, and the photo found has that id. |
| `App.FirstWithIdIsFirst` | App.tsx:84 | The photo `find` returns is the first one with the id: every photo before it has another id. |
| `App.WithoutAppend` | App.tsx:88 | The filter works on each part of a list separately, so the photos that stay keep their order. |
| `App.WithoutUnknownIdIsNoOp` | App.tsx:88 | Removing an absent id changes nothing. |
| `App.WithoutRemovesOne` | App.tsx:82-90 | With unique ids, removing the id at position k is the list with position k cut out. |
| `App.TailOfUnique` | App.tsx:88 | The tail of a list with unique ids has unique ids, none equal to the head's. |
| `App.WithoutKeepsIdsUnique` | App.tsx:88 | Removing keeps the ids unique. |
| `App.RemoveAt` | App.tsx:111 | Taking one photo out shortens the list by one. |
| `App.InsertAt` | App.tsx:112 | Putting one photo in lengthens the list by one. |
| `App.Move` | App.tsx:109-112 | The dragged photo lands at the target. Taking it out again gives the old list without it. The list is a permutation of the old one. |
| `App.MoveAt` | App.tsx:109-112 | The photos between the two positions shift by one place; all others stay put. |
| `App.MoveToSelf` | App.tsx:109-112 | Moving a photo to its own place changes nothing. |
| `App.MoveCompose` | App.tsx:106-116 | Two moves of the same photo are one move from the first place to the last. |
| `App.MoveInverse` | App.tsx:109-112 | Moving back undoes a move. |
| `App.MoveKeepsIdsUnique` | App.tsx:109-112 | A move keeps the ids unique. |
| `App.DragEnter` | App.tsx:106-116 | A drag-enter keeps the length, and the cursor stays on a card. |
| `App.DragGestureIsOneMove` | App.tsx:101-121 | However the drag wanders over the cards, a whole drag gesture is one move of the grabbed photo to where the cursor ends. The cursor ends on the last card entered, or on the grabbed card when none was. |
| `App.CustomThenBackToMenu` | components/PhotoCard.tsx:77-103 | Switching to custom entry, typing, and going back to the menu leaves the photo on the first preset and not custom. No other photo is touched. |
| `App.ExportFilenameSpec` | App.tsx:127-128 | The filename is never blank and has no surrounding whitespace. It ends in `.pdf` in some letter case. Blank input gives "家訪照片紀錄.pdf". A name ending in `.pdf` in any case is kept trimmed. Any other name gets `.pdf` added. |
| `App.SuffixKeepsTrimmed` | App.tsx:128 | Appending `.pdf` to a trimmed non-empty name keeps it trimmed. |
| `App.SuffixEndsWith` | App.tsx:128 | After `.pdf` is appended, the lower-cased name ends with `.pdf`. |
| `App.ExportFilenameIdempotent` | App.tsx:127-128 | Normalising a normalised filename changes nothing. |
| `App.ExportFilenameBlank` | App.tsx:127-128 | Any name made only of whitespace, the empty name included, becomes "家訪照片紀錄.pdf". |
| `App.PreviewUrls` | App.tsx:93 | The URLs to revoke are the photos' preview URLs, in list order. |
| `App.AppState.constructor` | App.tsx:15-25 | The session starts with no layout and no photos, nothing in progress, no error, and no drag. |
| `App.AppState.ChooseLayout` | App.tsx:145-181 | A selection-screen button sets the layout. |
| `App.AppState.HandleUpload` | App.tsx:34-70 | A null list does nothing. Otherwise the list and error become those of `Upload`, the processing flag ends down, the limit holds, and fresh ids keep the ids unique. |
| `App.AppState.UpdateCategory` | App.tsx:72-76 | The list becomes `UpdateAll` of the old one, and ids stay unique. |
| `App.AppState.RemovePhoto` | App.tsx:82-90 | The first photo with the id has its URL revoked. Every photo with the id leaves the list. Ids stay unique. |
| `App.AppState.ResetAll` | App.tsx:92-98 | Every preview URL is revoked, in order. The list, the error and the layout are cleared. The uploader key goes up by one. |
| `App.AppState.HandleDragStart` | App.tsx:101-104 | The drag cursor starts on the grabbed card. |
| `App.AppState.HandleDragEnter` | App.tsx:106-116 | List and cursor become `DragEnter` of the old ones, and ids stay unique. |
| `App.AppState.HandleDragEnd` | App.tsx:118-121 | Both drag slots are cleared. |
| `App.AppState.OpenPreview` | App.tsx:319-320 | The modal opens only with photos and nothing in progress. |
| `App.AppState.ClosePreview` | App.tsx:216 | The modal closes. |
| `App.AppState.HandleDownloadPdf` | App.tsx:123-142 | Without photos or a layout, nothing happens. Otherwise it requests the normalised filename in the session's layout. Success closes the modal; failure sets the export error. The generating flag ends down. |

## Left out

- The PDF writer (`services/pdfGenerator.ts`: html2canvas and jsPDF) is not part of this model. The download is modelled up to the request it receives, and its success or failure is a parameter.
- The HEIC decoder (`heic2any`) is an oracle: the model covers what is done with its answer, not the decoding or the JPEG quality.
- Asynchrony: `await`, `Promise.all` and the 500 ms `setTimeout` before export are taken as one sequential step. The model cannot express an upload or an export interleaved with other events.
- `Math.random` ids and `URL.createObjectURL` are oracles given as functions. The uniqueness of ids is proved on the assumption `FreshIds` that the oracle returns fresh ids, which the code itself does not guarantee.
- The unmount effect that revokes every URL is not modelled (App.tsx:28-32). It closes over the first render's empty list, so it revokes nothing.
- The modal's floating-point scale and the resize listener (components/PreviewModal.tsx:32-55) are left out; pages are modelled at full size.
- Markup, styling, icons, the header's mode text and the instructions panel are left out. The drag-over handler only calls `preventDefault`, so it is left out too.
- `Text.ToLower`: folds ASCII letters only. JavaScript's `toLowerCase` folds all of Unicode. The difference cannot change whether a name ends with `.pdf` or `.heic`, but it can change the lower-cased text of other characters.
- `App.AppState.HandleDragEnter`: requires that the index and the drag cursor are positions of rendered cards. The code assumes this without checking, because both come from cards on screen.
- `App.AppState.HandleDragStart`, `App.AppState.HandleDragEnd`: the `effectAllowed` setting on the browser's drag data is left out.
- Console logging is left out: the conversion messages (services/imageUtils.ts:9 and 24) and the error logs of upload and export (App.tsx:65 and 137).
- `App.AppState.HandleUpload`: leaves out the moment between steps when the processing flag is up and the warning is visible.
- The modal's two close buttons (components/PreviewModal.tsx:74 and 123) call the parent's close handler. That handler is modelled as `App.AppState.ClosePreview`, not inside the modal.
