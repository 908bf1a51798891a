# Excel unlocker front end — a Dafny model

This project models the client side of a small web application that unlocks
password-protected spreadsheets: the user drops `.xlsx`/`.xls` files into a
drop zone, types one shared password, and submits both to an unlocking
service, which answers with a zip archive to download. The model covers the
logic of that client:

- **File utilities** (`file_utils.dfy`): the MIME-type allow-list, the
  type-then-size validation with its messages, and the file-extension helper,
  as pure functions.
- **Drop zone intake** (`file_drop_zone.dfy`): `processFiles`, a loop that
  rejects names already selected and files that fail validation, reports each
  rejection, and appends the survivors; `removeFile`, which copies the
  selection into an array and splices one entry out.
- **API client** (`api_service.dfy`): the multipart payload (one `files` part
  per file, then one `password` part) built by a loop, and the fallback chain
  that picks the message of the thrown error.
- **Page state** (`index_page.dfy`): the class `UnlockForm` with the fields
  `files`, `password`, `isProcessing` and `resultBlob` (plus a toast log and
  the submission an awaiting `handleSubmit` captured). The asynchronous
  `handleSubmit` is split into `Submit` (guards, then entering processing) and
  `Complete` (the reply arrives; success stores the archive, failure clears
  it; processing ends). The object invariant says a call is in flight exactly
  while processing, only for a non-empty selection, and never while a
  result is held.
- **JavaScript built-ins** (`js_strings.dfy`): `lastIndexOf`, `>>> 0`,
  `slice`, `toLowerCase`, `trim` and the decimal rendering of a count, with
  their properties.

Two behaviours of the code are easy to miss:

- The selection is not guaranteed to hold distinct names. Duplicates are
  checked only against the selection as it was before the batch, so two
  same-named files in one batch are both accepted
  (`FileDropZone.SameBatchDuplicatesAccepted`). Distinct names are guaranteed
  to be kept when the prior selection and the batch each have distinct names
  (`FileDropZone.SelectionStaysDistinct`).
- An error body that parses but has no truthy `detail` yields
  'Failed to unlock files', not the HTTP status text. The status text is used
  only when the body does not parse, or parses to `null`, because reading
  `.detail` of `null` throws inside the same `try`.

## Model

| member | source | states |
|---|---|---|
| FileUtils.IsExcelFile | frontend/src/utils/fileUtils.ts:5-14 | a file is a spreadsheet iff its MIME type equals one of the four allowed strings exactly |
| FileUtils.IsExcelFileIsExact | frontend/src/utils/fileUtils.ts:5-14 | a prefix of an allowed type, a different letter case, a parameterised type and the empty type are all refused |
| FileUtils.ValidateExcelFile | frontend/src/utils/fileUtils.ts:39-58 | valid iff the type is allowed and size ≤ 20 MiB; valid iff no message; a wrong type gets the "not an Excel file" message even when oversize; an allowed oversize file gets the size message |
| FileUtils.SizeLimitBoundary | frontend/src/utils/fileUtils.ts:48-57 | 20971520 bytes is accepted and 20971521 bytes is refused with the size message |
| FileUtils.RejectionMessageIdentifiesFileAndReason | frontend/src/utils/fileUtils.ts:41-55 | every rejection message starts with the file name, and the type and size messages differ |
| FileUtils.ExtensionWithoutDot | frontend/src/utils/fileUtils.ts:32-34 | a name without '.' has the empty extension |
| FileUtils.ExtensionOfDotFile | frontend/src/utils/fileUtils.ts:32-34 | a name whose only '.' is at index 0 has the empty extension, because the unsigned shift wraps the index past the end |
| FileUtils.ExtensionAfterLastDot | frontend/src/utils/fileUtils.ts:32-34 | otherwise the extension is the lower-cased text after the last '.', and it contains no '.' |
| FileUtils.ExtensionExample | frontend/src/utils/fileUtils.ts:32-34 | "Q3.Report.XLS" has extension "xls" |
| FileUtils.GetFileExtension | frontend/src/utils/fileUtils.ts:32-34 | the extension is the lower-cased form of a suffix of the name, no longer than it, with no upper-case letter |
| JsStrings.LastIndexOf | frontend/src/utils/fileUtils.ts:33 | -1 iff the character is absent; otherwise the index holds it and no later index does |
| JsStrings.ToUint32 | frontend/src/utils/fileUtils.ts:33 | `>>> 0` keeps values in [0, 2^32) and adds 2^32 to values in [-2^32, 0) |
| JsStrings.Slice | frontend/src/utils/fileUtils.ts:33 | the result is a suffix; from `start` when it is in range, empty when it is past the end |
| JsStrings.ToLowerCase | frontend/src/utils/fileUtils.ts:33 | same length, each character lower-cased |
| JsStrings.ToLowerCaseIdempotent | frontend/src/utils/fileUtils.ts:33 | lower-casing twice is lower-casing once |
| JsStrings.ToLowerCaseKeepsNonLetter | frontend/src/utils/fileUtils.ts:33 | a non-letter such as '.' occurs in the lower-cased text iff it occurs in the original |
| JsStrings.Trim | frontend/src/pages/Index.tsx:42 | the trimmed text is empty or begins and ends with a non-white-space character |
| JsStrings.TrimRemovesOnlyEnds | frontend/src/pages/Index.tsx:42 | the trimmed text is a contiguous part of the input with only white space before and after it |
| JsStrings.TrimEmptyIffBlank | frontend/src/pages/Index.tsx:42 | `trim()` is empty iff every character is white space |
| JsStrings.DecimalString | frontend/src/pages/Index.tsx:65 | a count renders as one or more digits with no leading zero |
| JsStrings.DecimalRoundTrip | frontend/src/pages/Index.tsx:65 | reading the rendered digits back gives the count |
| FileDropZone.Judge | frontend/src/components/FileDropZone.tsx:45-65 | a candidate is a duplicate iff its name is in the prior names; accepted iff not a duplicate and valid; an invalid one carries the validation message |
| FileDropZone.ProcessFiles | frontend/src/components/FileDropZone.tsx:35-75 | a missing batch changes nothing; otherwise the reports are the per-candidate rejections in order, and the new selection is the old one followed by the accepted candidates, or no callback when none is accepted |
| FileDropZone.AcceptedAppend | frontend/src/components/FileDropZone.tsx:45-68 | the files a concatenated batch admits are those its parts admit, concatenated: candidates are judged independently and in order |
| FileDropZone.ReportsAppend | frontend/src/components/FileDropZone.tsx:45-68 | the reports of a concatenated batch are those of its parts, concatenated: a rejection does not stop later candidates |
| FileDropZone.AcceptedSingle | frontend/src/components/FileDropZone.tsx:45-68 | one candidate is accepted iff admissible, else reported exactly once |
| FileDropZone.AcceptedSound | frontend/src/components/FileDropZone.tsx:43-67 | every accepted file is a candidate whose name is not in the prior selection and that passes validation |
| FileDropZone.AcceptedComplete | frontend/src/components/FileDropZone.tsx:43-67 | every admissible candidate is accepted, whatever precedes or follows it |
| FileDropZone.RejectionReported | frontend/src/components/FileDropZone.tsx:45-65 | a rejected candidate is reported with the duplicate toast or with its validation message |
| FileDropZone.EveryCandidateAccountedFor | frontend/src/components/FileDropZone.tsx:45-68 | accepted plus reported equals the batch size |
| FileDropZone.AcceptedKeepsDistinct | frontend/src/components/FileDropZone.tsx:45-68 | a batch with distinct names yields accepted files with distinct names |
| FileDropZone.SelectionStaysDistinct | frontend/src/components/FileDropZone.tsx:43-71 | if the prior selection and the batch each have distinct names, so does the new selection |
| FileDropZone.SameBatchDuplicatesAccepted | frontend/src/components/FileDropZone.tsx:43-47 | two admissible same-named candidates in one batch are both accepted, so names can repeat |
| FileDropZone.SpliceStart | frontend/src/components/FileDropZone.tsx:100 | an index in [-n, n) lands at that position modulo n, so a negative one counts from the end; below -n it starts at 0; at or past n nothing is removed |
| FileDropZone.RemoveFile | frontend/src/components/FileDropZone.tsx:97-104 | the copied list with the entry at the splice position removed, or unchanged past the end |
| FileDropZone.RemoveInRange | frontend/src/components/FileDropZone.tsx:97-104 | removing index i of n entries leaves n-1 entries, all others in original order, the same multiset less the removed one |
| FileDropZone.RemovePastEnd | frontend/src/components/FileDropZone.tsx:97-104 | an index at or past the end removes nothing |
| FileDropZone.RemoveNegative | frontend/src/components/FileDropZone.tsx:97-104 | a negative index counts from the end |
| ApiService.BuildFormData | frontend/src/services/apiService.ts:16-25 | the form is one "files" part per file in order, then one "password" part |
| ApiService.FileEntriesReadBack | frontend/src/services/apiService.ts:19-22 | the file parts read back as the files, with no password part |
| ApiService.PayloadReadsBack | frontend/src/services/apiService.ts:16-25 | the server reads back exactly the files in order and the single unchanged password |
| ApiService.ServerErrorMessage | frontend/src/services/apiService.ts:35-46 | a truthy non-string `detail` gives its `String(detail)` rendering; the inner message is non-empty unless that rendering is empty |
| ApiService.Rethrown | frontend/src/services/apiService.ts:52-55 | the outer catch always yields a non-empty message, keeping a non-empty one |
| ApiService.UnlockExcelFiles | frontend/src/services/apiService.ts:12-56 | one POST to the unlock endpoint with the payload; an ok body is returned untouched; a failure has a non-empty message chosen by the fallback chain |
| ApiService.DetailIsTheMessage | frontend/src/services/apiService.ts:37-40 | a non-empty string `detail` is the message |
| ApiService.RenderedDetailIsTheMessage | frontend/src/services/apiService.ts:37-40 | a truthy non-string `detail` (such as an array of validation errors) that renders non-empty is the message |
| ApiService.MissingDetailIsGeneric | frontend/src/services/apiService.ts:37-40 | a parsed body without truthy `detail` gives 'Failed to unlock files' |
| ApiService.UnreadableBodyUsesStatusText | frontend/src/services/apiService.ts:38-44 | an unparsable or `null` body gives the status text, or 'Failed to unlock files' when it is empty |
| ApiService.ClientFallbackReachable | frontend/src/services/apiService.ts:52-55 | 'Failed to unlock Excel files' appears for an empty-rendering detail and for a message-less network error |
| ApiService.OutcomeShape | frontend/src/services/apiService.ts:27-55 | success iff an ok response, returning its body; every failure message is non-empty |
| IndexPage.IsBlank | frontend/src/pages/Index.tsx:42 | `!password.trim()` holds iff every character of the password is white space (also line 144) |
| IndexPage.SubmitGuard | frontend/src/pages/Index.tsx:32-49 | empty files are reported first; with files, a blank password is reported; it passes iff files are present and the password is not blank |
| IndexPage.SubmitGuardPasses | frontend/src/pages/Index.tsx:42-49 | the guards pass iff files are present and the password holds a non-white-space character; the "Unlock Files" button (lines 141-147) is disabled exactly when they refuse |
| IndexMessages.FailureDescription | frontend/src/pages/Index.tsx:68-75 | the error message when non-empty, else a non-empty default |
| IndexMessages.SuccessDescription | frontend/src/pages/Index.tsx:65 | the success text begins with the rendered count followed by a space |
| IndexMessages.SuccessDescriptionSingular | frontend/src/pages/Index.tsx:62-66 | one file reads "1 file has been unlocked." |
| IndexMessages.SuccessDescriptionPlural | frontend/src/pages/Index.tsx:62-66 | three files read "3 files have been unlocked." |
| IndexMessages.SuccessDescriptionNamesCount | frontend/src/pages/Index.tsx:62-66 | different counts give different success texts |
| IndexPage.ApiErrorsShownVerbatim | frontend/src/pages/Index.tsx:68-75 | errors from the API client are shown as they are; the unknown-error text never appears for them |
| IndexPage.UnlockForm.constructor | frontend/src/pages/Index.tsx:13-16 | no files, empty password, not processing, no result |
| IndexPage.UnlockForm.HandleFileSelection | frontend/src/pages/Index.tsx:19-23 | files replaced, result cleared, everything else unchanged |
| IndexPage.UnlockForm.HandlePasswordChange | frontend/src/pages/Index.tsx:25-27 | password stored as typed, everything else unchanged |
| IndexPage.UnlockForm.Submit | frontend/src/pages/Index.tsx:29-54 | a failed guard adds its toast and changes nothing else; otherwise processing starts, the result is cleared and the current files and untrimmed password are captured |
| IndexPage.UnlockForm.Complete | frontend/src/pages/Index.tsx:56-78 | the request carries the captured files and password and the outcome is the API client's; success stores the body with the count toast, failure clears the result with the message toast; processing ends |
| IndexPage.UnlockForm.HandleDownload | frontend/src/pages/Index.tsx:81-85 | no download without a result; otherwise the result under "unlocked_excel_files.zip" |

## Left out

- Network, DOM and timers: `fetch` is replaced by its reply, passed to `ApiService.UnlockExcelFiles` and `IndexPage.UnlockForm.Complete` as a parameter; `FormData` is a sequence of parts; `Blob` is an opaque byte sequence; `downloadBlobAsFile` is reduced to the `Download` value `HandleDownload` returns; the `console.error` logging in the client's outer catch (apiService.ts:53) is not modelled.
- A failure of `response.blob()` after an ok status is not modelled.
- Concurrency: the `await` in `handleSubmit` is the split between `Submit` and `Complete`. `Submit` requires that no call is in flight, because the form is not rendered while processing.
- `formatFileSize`: it uses floating-point logarithms, powers and `toFixed`.
- The drag-state handlers, `PasswordInput`'s visibility toggle, `ProcessingAnimation`'s timer schedule, and all rendering. Toasts are a log of values.
- The backend (`backend/main.py`): decryption, zip creation and file I/O run outside the client.
- JsStrings.ToLowerCase: lower-cases only the ASCII letters, not the full Unicode case mapping of `toLowerCase`.
- FileUtils.ExtensionWithoutDot, FileUtils.ExtensionOfDotFile and FileUtils.ExtensionAfterLastDot: assume names shorter than 2^32 code units. JavaScript engines limit strings far below that, and above it the wrapped index would no longer reach past the end.
- ApiService.ServerErrorMessage: a `detail` that is not a string is described only by whether it is truthy and by the text `String(detail)` gives; JSON values themselves are not modelled.
- JsStrings.DecimalString: models the rendering of whole non-negative numbers only, which is all a file count can be.
