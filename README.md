# File conversion service: a Dafny model

This project models the core of a file conversion service. A web client offers
output formats for an uploaded file. It sends the file and the chosen format to
one server endpoint, `POST /api/convert`. The server classifies the
(input extension, output extension) pair and runs one strategy. The strategies
are: jsPDF for text to PDF, FFmpeg with a jsPDF fallback for images to PDF,
docx for text to DOCX, pdf-parse for PDF to text, pdfjs with a canvas for PDF to
an image, a canvas drawing loop for text to an image, and FFmpeg for
everything else. The client keeps a queue of files in a store, and the model
covers that store too.

The project has seven modules:

- `Common`: `Option`, `Outcome` and `Bytes`.
- `FileNames`: the JavaScript string operations the code relies on.
  - `split(".").pop()` followed by `toLowerCase()`.
  - `split('\n')`.
  - The suffix regular expression `/\.[^/.]+$/` used with `replace`.
  - `toUpperCase()`.
- `Formats`: the client's format registry and the checks `convertFile` makes
  before and after its request.
- `Dispatch`: the handler as pure functions. It covers classification, the
  FFmpeg option profiles, the content-type table, the image-to-PDF fallback
  plan and the text layout. `Serve` gives the response and the ordered
  provider calls for a request under any behaviour of the providers.
- `Handler`: the handler as the step-by-step code it is.
  - A `Host` object records the provider calls and owns the temporary
    directories.
  - `finally` blocks release those directories.
  - The text drawing loop is a `while` loop with a `break`.
  - Every method is proved to produce exactly what `Dispatch` specifies.
- `FileStore`: the client's file store as a class over a sequence of items,
  with the `formatDuration` helper.
- `CrossChecks`: facts that relate the client to the server.

The libraries the server calls are modelled as provider functions. These are
jsPDF, docx, pdf-parse, pdfjs with canvas, FFmpeg, the file system and the
UTF-8 decoder. Each provider is an arbitrary total function, or a flag for
"the native module does not load" or "mkdtempSync throws". So every property
proved about `Serve` holds whatever the libraries do.

Where the code and its specification disagree, the model follows the code:

- **Empty results.** The final `!result` guard rejects only the empty string
  (apps/server/api/index.ts:469). An empty Buffer is truthy in JavaScript.
  So a strategy that produces zero bytes is served as a success of size 0,
  not refused as an unsupported conversion. `Dispatch.EmptyResultGuard` states
  this.
- **Names without a suffix.** The output file name is not always
  "name.ext". When the upload's name has no suffix that the regular
  expression matches, `replace` keeps the name unchanged
  (`FileNames.ReplaceSuffixShape`).
- **Names without a dot.** The input extension is the whole name,
  lower-cased (`FileNames.ExtensionWithoutDot`), not the empty string.
- **Names ending in a dot.** The input extension is empty, and such a request
  is not refused up front. A pdf, docx or txt output is refused by the
  document rules with 400 (`Dispatch.DocumentOutputsDecideFirst`). A PDF
  output for a PDF input is refused in the same way. Any other output goes to
  FFmpeg with the input file `input.`.
- **`$` in the format.** The general FFmpeg branch builds the name from the
  requested format, and `replace` expands `$` patterns in it. A format such
  as `x$&` turns "a.mp4" into "a.x.mp4". The model expands these patterns
  (`FileNames.ExpandReplacement`).

## Model

| member | source | states |
|---|---|---|
| FileNames.Lower | apps/server/api/index.ts:72-73 | `toLowerCase` keeps the length and maps every character through the ASCII lower-case table |
| FileNames.LowerIsLowerCase | apps/server/api/index.ts:73 | lower-casing gives a lower-case string, leaves a lower-case string unchanged, and is idempotent |
| FileNames.JoinSplit | apps/server/api/index.ts:330 | joining the pieces of `split(sep)` with `sep` gives back the original string |
| FileNames.SplitPiecesAvoidSeparator | apps/server/api/index.ts:330 | no piece of `split(sep)` contains the separator |
| FileNames.SplitLength | apps/server/api/index.ts:330 | `split(sep)` has one more piece than the string has separators |
| FileNames.LastSegmentIsLastPiece | apps/server/api/index.ts:72 | the text after the last dot is exactly the last piece `split(".").pop()` returns, so the optional chaining and the empty-string default never change the extension |
| FileNames.ExtensionWithoutDot | apps/server/api/index.ts:72 | a name without a dot is its own (lower-cased) extension |
| FileNames.ExtensionAfterTrailingDot | apps/server/api/index.ts:72 | a name ending in a dot has the empty extension |
| FileNames.ExtensionIsPlain | apps/server/api/index.ts:72 | the derived extension contains no dot and is lower case |
| FileNames.SuffixStartIsTheMatch | apps/server/api/index.ts:93 | the suffix found is a match of `/\.[^/.]+$/`, and it is the only match |
| FileNames.ExpandLiteral | apps/server/api/index.ts:93 | a replacement without `$` is inserted as it is, as in every fixed replacement of the handler |
| FileNames.ReplaceSuffixShape | apps/server/api/index.ts:93 | replacing the suffix keeps everything before the matched dot and appends the expanded replacement, which is the replacement itself when it has no `$`; a name with no match is returned unchanged, and there is no match exactly when no position matches |
| FileNames.DollarPatternExpands | apps/server/api/index.ts:452 | `$&` in the replacement brings the matched suffix back ("a.mp4" with ".x$&" gives "a.x.mp4") and `$$` gives one "$" |
| FileNames.SuffixIsExtension | apps/server/api/index.ts:72-93 | when a suffix matches, its text after the dot, lower-cased, is the request's input extension, which is then non-empty |
| FileNames.ReplaceSuffixIdempotent | apps/server/api/index.ts:452 | renaming a name a second time with the same plain extension (non-empty, without '.', '/' or '$') changes nothing |
| Formats.InputsDisjoint | apps/web/src/lib/ffmpeg.ts:111-128 | no input extension belongs to two categories |
| Formats.TableShape | apps/web/src/lib/ffmpeg.ts:111-128 | every output list has two different entries; all entries are lower case and none is empty |
| Formats.FirstCategory | apps/web/src/lib/ffmpeg.ts:133-137 | the loop over the categories finds the first category whose inputs hold the extension, or none when no category holds it |
| Formats.CategoryOfIsUnique | apps/web/src/lib/ffmpeg.ts:133-137 | the category found for an extension is the one whose inputs contain it |
| Formats.Remove | apps/web/src/lib/ffmpeg.ts:135 | `filter((f) => f !== ext)` keeps exactly the entries different from the extension |
| Formats.RemoveAppend | apps/web/src/lib/ffmpeg.ts:135 | filtering distributes over concatenation |
| Formats.SupportedOutputsSpec | apps/web/src/lib/ffmpeg.ts:130-140 | offers never include the input's own extension; the list is empty exactly for unknown extensions, and is otherwise the category's outputs minus the extension and never empty |
| Formats.SupportedOutputsKeepOrder | apps/web/src/lib/ffmpeg.ts:130-140 | the offered list is the category's output list in its order, whole or with just the input's own format taken out |
| Formats.OfferedAreLowerCase | apps/web/src/lib/ffmpeg.ts:111-140 | every offered format is lower case |
| Formats.OfferedAreNonEmpty | apps/web/src/lib/ffmpeg.ts:111-140 | the empty string is never offered |
| Formats.OfferedArePlain | apps/web/src/lib/ffmpeg.ts:111-140 | every offered format is non-empty and contains no '.', '/' or '$' |
| Formats.CategoryAgreesWithOutputs | apps/web/src/lib/ffmpeg.ts:142-154 | the category is "unknown" exactly when nothing is offered; otherwise it is the key of the category whose outputs are offered |
| Formats.DocumentCategory | apps/web/src/lib/ffmpeg.ts:142-154 | pdf, txt and md files get the category "document", which the declared return type leaves out |
| Formats.CheckSupported | apps/web/src/lib/ffmpeg.ts:44-50 | the request goes ahead exactly when the format is offered; otherwise the error names the raw last segment and the format, both upper-cased |
| Formats.CapitalFormatRejected | apps/web/src/lib/ffmpeg.ts:45-50 | a format with a capital letter is always rejected before any request, because the check is case-sensitive |
| Formats.ClientFileNameSpec | apps/web/src/lib/ffmpeg.ts:77-78 | the client's name is the upload's name without its matched suffix, plus "." and the format taken literally; it equals the regex replacement when the format has no `$`; a name without a suffix keeps its text and gains the extension |
| Formats.ConvertFile | apps/web/src/lib/ffmpeg.ts:39-109 | the outcome is a rejection exactly for unoffered formats, a download exactly for offered formats with a 2xx status (under the client's name), and otherwise a failure carrying the status |
| Dispatch.DocumentOutputsDecideFirst | apps/server/api/index.ts:84-257 | pdf, docx and txt outputs are decided by the document rules alone; a pair is refused exactly when those rules cannot serve it, for example pdf to pdf, pdf to docx and png to docx |
| Dispatch.TranscodeIsTheRest | apps/server/api/index.ts:258-368 | FFmpeg gets exactly the pairs that no earlier rule claims, including pdf to jpeg and pdf to webp |
| Dispatch.ProfilePriority | apps/server/api/index.ts:395-417 | each FFmpeg option profile is chosen exactly under its own condition once the earlier ones fail; GIF to webp or avif takes the first frame |
| Dispatch.ContentTypeTable | apps/server/api/index.ts:436-451 | the twelve listed outputs get their own MIME type; aac, flac, avif and any other output are served as octet-stream |
| Dispatch.FallbackCoversImageInputs | apps/server/api/index.ts:127-180 | jpg and jpeg are embedded as JPEG and png as PNG; the other image inputs go through a first-frame PNG; the final `else` is never reached for an image input |
| Dispatch.LayoutFromFits | apps/server/api/index.ts:343-348 | while the lines fit above the last baseline, the loop draws each of them, clipped, at 20 px steps |
| Dispatch.LayoutDrawsEveryKeptLine | apps/server/api/index.ts:329-348 | at most 20 lines of at most 80 characters are drawn, at baselines from 30 up to 410, so the `y > 580` stop never fires |
| Dispatch.ImageToPdfCalls | apps/server/api/index.ts:108-180 | FFmpeg renders first, and a further call happens exactly when that render failed; jsPDF is told PNG exactly for png uploads and extracted frames |
| Dispatch.CallsBelongToStrategy | apps/server/api/index.ts:258-467 | FFmpeg runs only in the two FFmpeg strategies once mkdtemp works; pdfjs renders only page 1 at scale 2; the canvas draws exactly the layout |
| Dispatch.MissingFieldsRefused | apps/server/api/index.ts:54-70 | an unreadable form, a missing file or an empty format is answered 400, and no provider is called; the messages are "Invalid form data or upload failed", "No file provided" and "No target format provided" |
| Dispatch.RejectedPairsCallNothing | apps/server/api/index.ts:188-256 | a refused pair is answered 400 with "Cannot convert IN to OUT directly via document task.", and no provider is called |
| Dispatch.SuccessShape | apps/server/api/index.ts:469-488 | every success comes from a well-formed request; it names its file by the suffix replacement, carries a content type, reports the size of its data, and never carries the empty string; only the txt strategies answer with text |
| Dispatch.FinishSuccess | apps/server/api/index.ts:469-488 | a success response comes only from a produced, non-empty result, and carries that result and its length |
| Dispatch.EmptyResultGuard | apps/server/api/index.ts:469-471 | a produced result fails exactly when it is the empty string (400 "Unsupported conversion"); an empty Buffer is a success of size 0 |
| Dispatch.FallbackOnlyAfterDirectRenderFails | apps/server/api/index.ts:112-180 | for image to PDF the first call is the direct FFmpeg job, later calls happen exactly when it failed, and JPEG embeds use the uploaded bytes |
| Dispatch.BridgesEncodeJpegUnlessPng | apps/server/api/index.ts:304-309 | the PDF and text bridges label a success image/png only for png; jpg, jpeg, webp and avif get JPEG bytes |
| Dispatch.CallsAreConfined | apps/server/api/index.ts:258-348 | FFmpeg runs only inside a temporary directory; pdfjs only for PDF to jpg/png, page 1, scale 2; the canvas only for text to image, drawing the bounded layout |
| Dispatch.StepAnswersAre400 | apps/server/api/index.ts:166-364 | every early answer inside a strategy has status 400 |
| Dispatch.FailureStatuses | apps/server/api/index.ts:489-492 | failures are 400 or 500, and a 500 always says "Conversion failed" |
| Dispatch.TranscodeRunsOneProfiledJob | apps/server/api/index.ts:380-452 | the general branch runs one job from "input.IN" to "output.OUT" with the profile's options, and labels a success from the table |
| Handler.Host.MakeTempDir | apps/server/api/index.ts:108 | mkdtempSync hands out a directory that did not exist before |
| Handler.Host.RemoveTempDir | apps/server/api/index.ts:181-187 | rmSync removes the directory, or leaves it and logs one cleanup error, which is swallowed |
| Handler.Host.TextToPdfBranch | apps/server/api/index.ts:86-93 | the branch ends as `Dispatch.TextToPdfStep` specifies and makes its calls; no temporary directory |
| Handler.Host.ImagePdfFallback | apps/server/api/index.ts:127-180 | the catch block ends as the fallback step specifies and makes its calls |
| Handler.Host.ImageToPdfBranch | apps/server/api/index.ts:94-187 | image to PDF ends as specified, and its one temporary directory is released on every path |
| Handler.Host.TextToDocxBranch | apps/server/api/index.ts:199-223 | text to DOCX ends as specified and makes its one call |
| Handler.Host.PdfToTxtBranch | apps/server/api/index.ts:240-248 | PDF to text ends as specified and makes its one call |
| Handler.Host.PdfToImageBranch | apps/server/api/index.ts:259-320 | PDF to an image ends as specified: the missing-canvas answer, the render failure answer, or the image |
| Handler.Host.TextToImageBranch | apps/server/api/index.ts:322-366 | text to an image draws the specified layout and ends as specified |
| Handler.Host.TranscodeBranch | apps/server/api/index.ts:368-467 | the FFmpeg branch ends as specified, and its temporary directory is released on every path |
| Handler.Host.DocumentBranch | apps/server/api/index.ts:84-257 | the pdf, docx and txt rules end as the classified strategy specifies |
| Handler.Host.MediaBranch | apps/server/api/index.ts:258-467 | the two bridges and FFmpeg end as the classified strategy specifies |
| Handler.Host.StrategyBranch | apps/server/api/index.ts:84-467 | the whole if/else chain runs the strategy `Classify` picks |
| Handler.Host.HandleConvert | apps/server/api/index.ts:50-493 | the handler answers exactly `Serve`'s response and makes `Serve`'s calls in order; it creates one temporary directory exactly when an FFmpeg strategy runs, and releases it |
| Handler.DrawLines | apps/server/api/index.ts:343-348 | the drawing loop with its `break` draws exactly the layout the specification function gives |
| FileStore.ApplyLaws | apps/web/src/lib/file-store.ts:67-73 | `Object.assign` with an empty patch changes nothing, assigning the same patch twice equals once, and each of the sixteen fields the patch does not name keeps its value |
| FileStore.ApplyWritesNamedFields | apps/web/src/lib/file-store.ts:71 | each of the sixteen fields the patch names takes the patch's value, `undefined` included |
| FileStore.FirstIndex | apps/web/src/lib/file-store.ts:69 | `find` gives the first item with the id, or nothing when no item has it |
| FileStore.UpdateFirst | apps/web/src/lib/file-store.ts:67-73 | an update keeps the length, changes nothing for an unknown id, and changes only the first item with the id |
| FileStore.Filter | apps/web/src/lib/file-store.ts:59 | `filter` keeps exactly the elements that satisfy the predicate |
| FileStore.FilterAppend | apps/web/src/lib/file-store.ts:131-142 | filtering distributes over concatenation |
| FileStore.AwaitingAndDoneExclusive | apps/web/src/lib/file-store.ts:131-142 | no item is both queued for conversion and completed |
| FileStore.AddedFilesQueueLast | apps/web/src/lib/file-store.ts:52-55 | added files join both selector results after the existing ones, in order |
| FileStore.RemoveDropsEveryMatch | apps/web/src/lib/file-store.ts:57-60 | removing an id drops every item with that id, not just the first, and keeps the rest; an unknown id changes nothing |
| FileStore.StatusKeepsErrorUnlessGiven | apps/web/src/lib/file-store.ts:100-111 | the status is set; the old error stays unless a non-empty new one is given, so resetting to pending keeps a stale error |
| FileStore.ResultCompletesItem | apps/web/src/lib/file-store.ts:121-129 | storing a result completes the item at 100 %, lists it as completed, and takes it out of the queue |
| FileStore.StatusDecidesQueue | apps/web/src/lib/file-store.ts:100-136 | after a status change the item is queued exactly when it is pending or failed and has a target format |
| FileStore.Store.constructor | apps/web/src/lib/file-store.ts:50 | the store starts empty |
| FileStore.Store.AddFiles | apps/web/src/lib/file-store.ts:52-55 | the new files are appended in order |
| FileStore.Store.RemoveFile | apps/web/src/lib/file-store.ts:57-60 | the files become those without the id |
| FileStore.Store.ClearFiles | apps/web/src/lib/file-store.ts:62-65 | the store becomes empty |
| FileStore.Store.UpdateFile | apps/web/src/lib/file-store.ts:67-73 | the first item with the id takes the patch |
| FileStore.Store.SetOutputFormat | apps/web/src/lib/file-store.ts:75-81 | the first item with the id gets the format |
| FileStore.Store.SetQuality | apps/web/src/lib/file-store.ts:83-89 | the first item with the id gets the quality |
| FileStore.Store.SetTrimPoints | apps/web/src/lib/file-store.ts:91-98 | the first item with the id gets both trim points, absent ones included |
| FileStore.Store.SetConversionStatus | apps/web/src/lib/file-store.ts:100-111 | the first item with the id gets the status, and the error when one is given |
| FileStore.Store.SetConversionProgress | apps/web/src/lib/file-store.ts:113-119 | the first item with the id gets the progress |
| FileStore.Store.SetConversionResult | apps/web/src/lib/file-store.ts:121-129 | the first item with the id gets the result, status completed and progress 100 |
| FileStore.Store.GetFilesForConversion | apps/web/src/lib/file-store.ts:131-136 | the result holds exactly the pending or failed items that have a target format, in store order |
| FileStore.Store.GetCompletedFiles | apps/web/src/lib/file-store.ts:138-142 | the result holds exactly the completed items that have a result, in store order |
| FileStore.NatToStringValue | apps/web/src/lib/file-store.ts:161 | the decimal rendering of a number reads back as that number |
| FileStore.PaddedSeconds | apps/web/src/lib/file-store.ts:161 | seconds below 60 are rendered as exactly two digits that read back as the seconds |
| FileStore.FormatDurationRoundTrip | apps/web/src/lib/file-store.ts:158-162 | for every non-negative whole number of seconds, the "m:ss" text parses back to that number |
| FileStore.JsRemainderTruncates | apps/web/src/lib/file-store.ts:160 | JavaScript's `%` gives a remainder strictly between -60 and 60 (for any positive divisor), never of the opposite sign to the dividend, and congruent to it |
| FileStore.NegativeDurationFields | apps/web/src/lib/file-store.ts:158-162 | for every negative input the minutes are floored and the seconds truncated: the text is "-" and the floored minutes' magnitude, a colon, and "00" or "-" and the truncated seconds' magnitude; it never reads back as a duration |
| FileStore.FormatDurationNegative | apps/web/src/lib/file-store.ts:158-162 | sample values: -5 gives "-1:-5", 75 gives "1:15" and 5 gives "0:05" |
| CrossChecks.OfferedFormatsReachServerUnchanged | apps/web/src/lib/ffmpeg.ts:45-58 | a format that passes the client's check is non-empty and lower case, so the server's lower-casing keeps it |
| CrossChecks.VideoPairsServed | apps/web/src/lib/ffmpeg.ts:112-115 | the server refuses no video pair the client offers |
| CrossChecks.AudioPairsServed | apps/web/src/lib/ffmpeg.ts:116-119 | the server refuses no audio pair the client offers |
| CrossChecks.ImagePairsServed | apps/web/src/lib/ffmpeg.ts:120-123 | the server refuses no image pair the client offers |
| CrossChecks.DocumentPairsServed | apps/web/src/lib/ffmpeg.ts:124-127 | of the document pairs the client offers, the server refuses exactly pdf to docx |
| CrossChecks.OnlyPdfToDocxOfferedButRefused | apps/server/api/index.ts:198-231 | of all pairs the client lets through, the server refuses exactly pdf to docx |
| CrossChecks.PdfToDocxPassesClientFailsServer | apps/server/api/index.ts:224-231 | a PDF passes the client's check for docx, and the server then answers 400 "Cannot convert PDF to DOCX directly via document task." with no provider call |
| CrossChecks.FileNamesAgreeWhenSuffixed | apps/web/src/lib/ffmpeg.ts:77-78 | client and server name the result alike when the upload has a suffix and the format has no `$`; without a suffix the server keeps the name and the client appends the extension |
| CrossChecks.DollarFormatNamesDiffer | apps/server/api/index.ts:452 | a successful "x$&" request for "a.mp4" is named "a.x.mp4" by the server, the client's template would give "a.x$&", and the client never sends that format |
| CrossChecks.ClientFollowsServer | apps/web/src/lib/ffmpeg.ts:74-101 | for a request the client lets through, a server success becomes a download (under the server's own name when there is a suffix), and a 400 or 500 becomes a failure with that status |

## Left out

- The Hono application, CORS and the tRPC router are not modelled. The
  multipart parser is reduced to a `Form` value. A "format" entry that is a
  `File` rather than a string is not modelled.
- The libraries are opaque provider functions: FFmpeg, jsPDF, docx,
  pdf-parse, pdfjs, @napi-rs/canvas and UTF-8 decoding. What they compute,
  jsPDF's word wrap at 180 units and the docx run size are not modelled.
- An FFmpeg step is one provider call covering the input write, the run and
  the output read. The model does not see which of the three failed, apart
  from the error message the handler passes on.
- `file.text()` and `file.arrayBuffer()` are assumed not to throw. The base64
  encoding of the JSON body, the console logging and `parser.destroy()` /
  `pdfDocument.destroy()` are not modelled.
- Handler.Host.RemoveTempDir: whether rmSync fails is fixed per host (`rmFails`), not decided per call.
- Formats.ConvertFile: models the XMLHttpRequest only by its status. Upload
  progress, network errors and the FileReader error text are left out. So is
  the fact that the downloaded blob is the server's JSON envelope rather than
  decoded file bytes.
- `loadFFmpeg`, `getFFmpeg`, `formatFileSize` and `generateFileId` are left
  out: they rely on random numbers, the clock or floating point. The React
  components and the server's test and debug scripts are left out too.
- FileNames.Lower: case mapping covers ASCII letters only; JavaScript's
  Unicode case mapping (which can change a string's length) is not modelled.
- FileNames.Upper: case mapping covers ASCII letters only. JavaScript's
  Unicode `toUpperCase` in the error messages is not modelled.
- Dispatch.Clip: a string is a sequence of Unicode scalar values.
  JavaScript's `substring(0, 80)` counts UTF-16 code units, so for text
  outside the Basic Multilingual Plane the code keeps fewer characters than
  the model.
- Dispatch.Size: the size of a text result is its number of characters.
  JavaScript's `length` counts UTF-16 code units. Neither is the number of
  UTF-8 bytes sent.
- Dispatch.ContentTypeFor: the lookup ignores keys inherited from
  `Object.prototype` (an output named "constructor" would read an inherited
  function).
- FileStore.FormatDurationRoundTrip: seconds are whole numbers. JavaScript's
  fractional seconds and `Math.floor` on them are not modelled.
- FileStore.Store: zustand's immer draft and subscriber notification are
  not modelled. Each action is a direct update of the `files` sequence.
- Concurrent requests and concurrent store updates are not modelled.
