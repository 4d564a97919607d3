/**
  The `/api/convert` handler of the server, as pure functions: the
  classification of an (input extension, output extension) pair into one
  strategy, the option profile handed to FFmpeg, the MIME table, the
  image-to-PDF fallback plan, the text-to-image layout, and `Serve`, the
  response (and the sequence of provider calls) the handler produces for a
  request under given provider behaviour.
 */
module Dispatch {
  import opened Common
  import opened FileNames

  // ---------------------------------------------------------------------
  // Requests, responses, providers
  // ---------------------------------------------------------------------

  /** The uploaded file: its name and contents. */
  datatype Upload = Upload(name: string, data: Bytes)

  /**
    The multipart body as the handler sees it: unreadable, or its "file"
    entry (None when absent or not a file) and its "format" entry.
   */
  datatype Form = Unreadable | Form(file: Option<Upload>, format: Option<string>)

  /** The `result` local: a string (text outputs) or a Buffer. */
  datatype Payload = Text(text: string) | Binary(data: Bytes)

  /** `result.length`. */
  function Size(p: Payload): nat {
    match p
    case Text(t) => |t|
    case Binary(b) => |b|
  }

  /** The JSON answer: an error with its status, or the converted file (status 200). */
  datatype Response =
    | Failure(status: nat, error: string)
    | Success(filename: string, contentType: string, data: Payload, size: nat)

  /** How jsPDF is told to read an embedded image. */
  datatype ImageKind = PNG | JPEG

  /** The MIME type canvas.toBuffer is asked for. */
  datatype Encoding = PngBytes | JpegBytes

  /** One `fillText(text, x, y)` on the 800x600 canvas. */
  datatype Draw = Draw(text: string, x: int, y: int)

  /**
    One FFmpeg run inside the temporary directory: the input file name, the
    output file name and the output options. Writing the input, running and
    reading the output back are one provider step.
   */
  datatype Job = Job(input: Bytes, inputName: string, outputName: string, options: seq<string>)

  /** What an FFmpeg step ends with: the output bytes, an "error" event, or a failed write/read. */
  datatype FfmpegResult = Rendered(data: Bytes) | RunError(message: string) | FileError(message: string)

  /**
    The opaque providers. Each is an arbitrary total function, so every
    property proved about Serve holds whatever they do.
   */
  datatype Providers = Providers(
    decode: Bytes -> string,                             // file.text()
    textToPdf: string -> Outcome<Bytes>,                 // jsPDF splitTextToSize, text, output
    imageToPdf: (Bytes, ImageKind) -> Outcome<Bytes>,    // jsPDF addImage, output
    textToDocx: string -> Outcome<Bytes>,                // docx Packer.toBuffer
    pdfToText: Bytes -> Outcome<string>,                 // pdf-parse getText
    canvasLoads: bool,                                   // import("@napi-rs/canvas") succeeds
    renderPdfPage: (Bytes, Encoding) -> Outcome<Bytes>,  // pdfjs render and canvas.toBuffer
    renderText: (seq<Draw>, Encoding) -> Outcome<Bytes>, // canvas fillText calls and toBuffer
    mkdtempFails: bool,                                  // fs.mkdtempSync throws
    ffmpeg: Job -> FfmpegResult)                         // fluent-ffmpeg with file I/O

  /** A provider invocation, in the order the handler makes them. */
  datatype Call =
    | RenderTextPdf(text: string)
    | RunFfmpeg(job: Job)
    | EmbedImage(image: Bytes, kind: ImageKind)
    | PackDocx(text: string)
    | ExtractText(pdf: Bytes)
    | RenderPdfPage(pdf: Bytes, page: nat, scale: nat, encoding: Encoding)
    | RenderText(draws: seq<Draw>, encoding: Encoding)

  /** How one strategy branch ends before the final guard. */
  datatype Branch =
    | Produced(result: Payload, contentType: string, filename: string)
    | Answered(status: nat, error: string) // an early `return c.json({ error }, 400)`
    | Threw                          // an exception reaching the outer catch

  datatype Step = Step(branch: Branch, calls: seq<Call>)

  /** The whole effect of one request: the response and the provider calls made. */
  datatype Run = Run(response: Response, calls: seq<Call>)

  // ---------------------------------------------------------------------
  // Constant tables of the handler
  // ---------------------------------------------------------------------

  const TextInputs: seq<string> := ["txt", "md"]
  const PdfImageInputs: seq<string> := ["jpg", "jpeg", "png", "webp", "gif", "bmp", "tiff", "avif"]
  const DirectEmbedInputs: seq<string> := ["jpg", "jpeg", "png"]
  const FirstFrameInputs: seq<string> := ["gif", "webp", "bmp", "tiff", "avif"]
  const TextImageOutputs: seq<string> := ["jpg", "jpeg", "png", "webp", "avif"]
  const StillOutputs: seq<string> := ["png", "jpg", "jpeg", "webp", "avif"]
  const UltrafastOutputs: seq<string> := ["mp4", "webm", "gif"]

  const PdfMime := "application/pdf"
  const DocxMime := "application/vnd.openxmlformats-officedocument.wordprocessingml.document"
  const TextMime := "text/plain"
  const BinaryMime := "application/octet-stream"

  /** Page and scale pdfjs renders: the first page at twice its size. */
  const PdfPage: nat := 1
  const PdfScale: nat := 2

  /** The `contentTypes` table of the FFmpeg branch. */
  const ContentTypes: map<string, string> := map[
    "mp3" := "audio/mpeg",
    "wav" := "audio/wav",
    "ogg" := "audio/ogg",
    "mp4" := "video/mp4",
    "webm" := "video/webm",
    "avi" := "video/x-msvideo",
    "mov" := "video/quicktime",
    "jpg" := "image/jpeg",
    "jpeg" := "image/jpeg",
    "png" := "image/png",
    "gif" := "image/gif",
    "webp" := "image/webp"
  ]

  // ---------------------------------------------------------------------
  // Classification
  // ---------------------------------------------------------------------

  /** The branch of the handler's if/else chain a pair falls into. */
  datatype Strategy =
    | TextToPdf | ImageToPdf | RejectPdf
    | TextToDocx | RejectDocx
    | TextToTxt | PdfToTxt | RejectTxt
    | PdfToImage | TextToImage
    | Transcode

  /** First match wins: pdf, docx and txt outputs, then the two image bridges, then FFmpeg. */
  function Classify(inExt: string, outExt: string): Strategy {
    if outExt == "pdf" then
      if inExt in TextInputs then TextToPdf
      else if inExt in PdfImageInputs then ImageToPdf
      else RejectPdf
    else if outExt == "docx" then
      if inExt in TextInputs then TextToDocx else RejectDocx
    else if outExt == "txt" then
      if inExt in TextInputs then TextToTxt
      else if inExt == "pdf" then PdfToTxt
      else RejectTxt
    else if inExt == "pdf" && (outExt == "jpg" || outExt == "png") then PdfToImage
    else if inExt in TextInputs && outExt in TextImageOutputs then TextToImage
    else Transcode
  }

  predicate IsRejection(s: Strategy) {
    s == RejectPdf || s == RejectDocx || s == RejectTxt
  }

  /**
    The output-driven rules come first: a pdf, docx or txt output is decided by
    them alone and never reaches FFmpeg or an image bridge, and the pairs they
    cannot serve are refused. In particular pdf to pdf, pdf to docx and png to
    docx are refused.
   */
  lemma DocumentOutputsDecideFirst(inExt: string, outExt: string)
    ensures outExt in ["pdf", "docx", "txt"] <==>
      Classify(inExt, outExt) in {TextToPdf, ImageToPdf, RejectPdf, TextToDocx, RejectDocx, TextToTxt, PdfToTxt, RejectTxt}
    ensures IsRejection(Classify(inExt, outExt)) <==>
      || (outExt == "pdf" && inExt !in TextInputs && inExt !in PdfImageInputs)
      || (outExt == "docx" && inExt !in TextInputs)
      || (outExt == "txt" && inExt !in TextInputs && inExt != "pdf")
    ensures Classify("pdf", "pdf") == RejectPdf
    ensures Classify("pdf", "docx") == RejectDocx
    ensures Classify("png", "docx") == RejectDocx
  {
  }

  /**
    FFmpeg gets exactly the pairs no earlier rule claims. Among them: pdf to
    jpeg or webp (the PDF bridge only takes jpg and png) and any pair with an
    unknown input extension.
   */
  lemma TranscodeIsTheRest(inExt: string, outExt: string)
    ensures Classify(inExt, outExt) == Transcode <==>
      && outExt !in ["pdf", "docx", "txt"]
      && !(inExt == "pdf" && outExt in ["jpg", "png"])
      && !(inExt in TextInputs && outExt in TextImageOutputs)
    ensures Classify("pdf", "jpeg") == Transcode && Classify("pdf", "webp") == Transcode
  {
  }

  // ---------------------------------------------------------------------
  // FFmpeg option profiles
  // ---------------------------------------------------------------------

  datatype Profile = FirstFrame | Ultrafast | FastPreset | AvifFast | NoOptions

  /** The options chosen by priority: GIF to a still image, then video outputs, then webp, then avif. */
  function ProfileFor(inExt: string, outExt: string): Profile {
    if inExt == "gif" && outExt in StillOutputs then FirstFrame
    else if outExt in UltrafastOutputs then Ultrafast
    else if outExt == "webp" then FastPreset
    else if outExt == "avif" then AvifFast
    else NoOptions
  }

  /** The output options each profile passes to fluent-ffmpeg. */
  function ProfileOptions(p: Profile): seq<string> {
    match p
    case FirstFrame => FirstFrameOptions
    case Ultrafast => ["-preset ultrafast"]
    case FastPreset => ["-preset fast"]
    case AvifFast => ["-preset", "fast", "-crf", "30", "-t", "10"]
    case NoOptions => []
  }

  /** Select frame 0, no frame sync, one frame, high quality, single-image output. */
  const FirstFrameOptions: seq<string> :=
    ["-vf", "select=eq(n\\,0)", "-vsync", "0", "-frames:v", "1", "-q:v", "2", "-update", "1"]

  /**
    Each profile is chosen exactly under its condition and the earlier
    conditions failing. A GIF input with a still-image output always takes the
    first frame, so GIF to webp or avif never gets the webp or avif preset; the
    avif cap of ten seconds applies only to non-GIF inputs.
   */
  lemma ProfilePriority(inExt: string, outExt: string)
    ensures ProfileFor(inExt, outExt) == FirstFrame <==> inExt == "gif" && outExt in StillOutputs
    ensures ProfileFor(inExt, outExt) == Ultrafast <==> outExt in UltrafastOutputs
    ensures ProfileFor(inExt, outExt) == FastPreset <==> outExt == "webp" && inExt != "gif"
    ensures ProfileFor(inExt, outExt) == AvifFast <==> outExt == "avif" && inExt != "gif"
    ensures ProfileFor("gif", "webp") == FirstFrame && ProfileFor("gif", "avif") == FirstFrame
    ensures ProfileFor("gif", "gif") == Ultrafast
  {
  }

  // ---------------------------------------------------------------------
  // Content types
  // ---------------------------------------------------------------------

  /** `contentTypes[outputExt] || "application/octet-stream"`. */
  function ContentTypeFor(outExt: string): string {
    if outExt in ContentTypes then ContentTypes[outExt] else BinaryMime
  }

  /**
    The FFmpeg branch labels audio, video and common image outputs from the
    table; the outputs missing from it (aac and flac, which the client offers,
    and avif) go out as generic binary.
   */
  lemma ContentTypeTable(outExt: string)
    ensures ContentTypeFor("aac") == BinaryMime
    ensures ContentTypeFor("flac") == BinaryMime
    ensures ContentTypeFor("avif") == BinaryMime
    ensures ContentTypeFor(outExt) != BinaryMime <==>
      outExt in ["mp3", "wav", "ogg", "mp4", "webm", "avi", "mov", "jpg", "jpeg", "png", "gif", "webp"]
    ensures ContentTypeFor(outExt) == "image/jpeg" <==> outExt in ["jpg", "jpeg"]
  {
  }

  /** The PDF and text bridges render PNG bytes only for png and JPEG bytes for every other output. */
  function RasterEncoding(outExt: string): Encoding {
    if outExt == "png" then PngBytes else JpegBytes
  }

  function RasterMime(e: Encoding): string {
    match e
    case PngBytes => "image/png"
    case JpegBytes => "image/jpeg"
  }

  // ---------------------------------------------------------------------
  // Image to PDF fallback plan
  // ---------------------------------------------------------------------

  /** What the handler tries once the direct FFmpeg render to PDF has failed. */
  datatype Fallback = EmbedAs(kind: ImageKind) | FirstFrameThenEmbed | NoFallback

  function FallbackFor(inExt: string): Fallback {
    if inExt in DirectEmbedInputs then EmbedAs(if inExt == "png" then PNG else JPEG)
    else if inExt in FirstFrameInputs then FirstFrameThenEmbed
    else NoFallback
  }

  /**
    jpg, jpeg and png are embedded directly, as PNG exactly for png; the other
    image inputs go through a first-frame PNG. The two fallback lists together
    are exactly the inputs that reach the image branch, so its final `else` is
    never taken.
   */
  lemma FallbackCoversImageInputs(inExt: string)
    ensures inExt in PdfImageInputs <==> FallbackFor(inExt) != NoFallback
    ensures FallbackFor(inExt) == EmbedAs(PNG) <==> inExt == "png"
    ensures FallbackFor(inExt) == EmbedAs(JPEG) <==> inExt in ["jpg", "jpeg"]
    ensures FallbackFor(inExt) == FirstFrameThenEmbed <==> inExt in ["gif", "webp", "bmp", "tiff", "avif"]
  {
  }

  // ---------------------------------------------------------------------
  // Text to image layout
  // ---------------------------------------------------------------------

  const MaxLines: nat := 20
  const MaxColumns: nat := 80
  const LeftMargin: int := 20
  const FirstBaseline: int := 30
  const LineHeight: int := 20
  const LastBaseline: int := 580

  /** `textContent.split('\n').slice(0, 20)`. */
  function Lines(text: string): seq<string> {
    var all := Split(text, '\n');
    if |all| <= MaxLines then all else all[..MaxLines]
  }

  /** `line.substring(0, 80)`. */
  function Clip(line: string): string {
    if |line| <= MaxColumns then line else line[..MaxColumns]
  }

  /** The drawing loop read literally: stop when `y > 580`, else draw and move down one line. */
  function LayoutFrom(lines: seq<string>, y: int): seq<Draw>
    decreases |lines|
  {
    if lines == [] then []
    else if y > LastBaseline then []
    else [Draw(Clip(lines[0]), LeftMargin, y)] + LayoutFrom(lines[1..], y + LineHeight)
  }

  function Layout(text: string): seq<Draw> {
    LayoutFrom(Lines(text), FirstBaseline)
  }

  lemma {:induction false} LayoutFromFits(lines: seq<string>, y: int)
    requires y + LineHeight * (|lines| - 1) <= LastBaseline
    ensures |LayoutFrom(lines, y)| == |lines|
    ensures forall i :: 0 <= i < |lines| ==>
      LayoutFrom(lines, y)[i] == Draw(Clip(lines[i]), LeftMargin, y + LineHeight * i)
    decreases |lines|
  {
    if lines != [] {
      LayoutFromFits(lines[1..], y + LineHeight);
      var rest := LayoutFrom(lines[1..], y + LineHeight);
      forall i | 1 <= i < |lines|
        ensures LayoutFrom(lines, y)[i] == Draw(Clip(lines[i]), LeftMargin, y + LineHeight * i)
      {
        assert LayoutFrom(lines, y)[i] == rest[i - 1];
        assert lines[1..][i - 1] == lines[i];
      }
    }
  }

  /**
    At most the first twenty lines are drawn, each cut to eighty characters,
    on baselines 30, 50, ..., at most 410; so the `y > 580` stop never fires
    and every one of those lines is drawn.
   */
  lemma LayoutDrawsEveryKeptLine(text: string)
    ensures |Lines(text)| <= MaxLines
    ensures |Layout(text)| == |Lines(text)|
    ensures |Lines(text)| == if |Split(text, '\n')| <= MaxLines then |Split(text, '\n')| else MaxLines
    ensures forall i :: 0 <= i < |Layout(text)| ==>
      && Layout(text)[i] == Draw(Clip(Lines(text)[i]), LeftMargin, FirstBaseline + LineHeight * i)
      && Layout(text)[i].y <= 410
      && |Layout(text)[i].text| <= MaxColumns
  {
    LayoutFromFits(Lines(text), FirstBaseline);
  }

  // ---------------------------------------------------------------------
  // The strategies
  // ---------------------------------------------------------------------

  function CannotConvert(inExt: string, target: string): string {
    "Cannot convert " + Upper(inExt) + " to " + target + " directly via document task."
  }

  function TextImageError(inExt: string, outExt: string): string {
    "Cannot convert " + Upper(inExt) + " to " + Upper(outExt)
      + ": Text rendering requires native dependencies not available in serverless environment."
  }

  /** The FFmpeg job for one input and output file name. */
  function MakeJob(up: Upload, inExt: string, outputName: string, options: seq<string>): Job {
    Job(up.data, "input." + inExt, outputName, options)
  }

  /** txt/md to PDF with jsPDF; a jsPDF exception reaches the outer catch. */
  function TextToPdfStep(up: Upload, p: Providers): Step {
    var text := p.decode(up.data);
    match p.textToPdf(text)
    case Ok(pdf) => Step(Produced(Binary(pdf), PdfMime, ReplaceSuffix(up.name, ".pdf")), [RenderTextPdf(text)])
    case Err(_) => Step(Threw, [RenderTextPdf(text)])
  }

  /** Embed the upload itself as one page; a jsPDF exception reaches the outer catch. */
  function EmbedStep(up: Upload, kind: ImageKind, p: Providers): Step {
    var call := EmbedImage(up.data, kind);
    match p.imageToPdf(up.data, kind)
    case Ok(pdf) => Step(Produced(Binary(pdf), PdfMime, ReplaceSuffix(up.name, ".pdf")), [call])
    case Err(_) => Step(Threw, [call])
  }

  /** Extract the first frame as PNG, then embed it; any failure is answered with 400. */
  function FirstFrameStep(up: Upload, inExt: string, p: Providers): Step {
    var job := MakeJob(up, inExt, "temp.png", FirstFrameOptions);
    var refused := Answered(400, CannotConvert(inExt, "PDF"));
    match p.ffmpeg(job)
    case Rendered(png) =>
      (match p.imageToPdf(png, PNG)
       case Ok(pdf) =>
         Step(Produced(Binary(pdf), PdfMime, ReplaceSuffix(up.name, ".pdf")), [RunFfmpeg(job), EmbedImage(png, PNG)])
       case Err(_) => Step(refused, [RunFfmpeg(job), EmbedImage(png, PNG)]))
    case _ => Step(refused, [RunFfmpeg(job)])
  }

  /** The catch block of the image to PDF branch, after the direct render failed. */
  function ImagePdfFallbackStep(up: Upload, inExt: string, p: Providers): Step {
    match FallbackFor(inExt)
    case EmbedAs(kind) => EmbedStep(up, kind, p)
    case FirstFrameThenEmbed => FirstFrameStep(up, inExt, p)
    case NoFallback => Step(Answered(400, CannotConvert(inExt, "PDF")), [])
  }

  /** Image to PDF: FFmpeg renders directly, and only when that fails is the fallback tried. */
  function ImageToPdfStep(up: Upload, inExt: string, p: Providers): Step {
    if p.mkdtempFails then Step(Threw, [])
    else
      var job := MakeJob(up, inExt, "output.pdf", []);
      match p.ffmpeg(job)
      case Rendered(pdf) => Step(Produced(Binary(pdf), PdfMime, ReplaceSuffix(up.name, ".pdf")), [RunFfmpeg(job)])
      case _ =>
        var fallback := ImagePdfFallbackStep(up, inExt, p);
        Step(fallback.branch, [RunFfmpeg(job)] + fallback.calls)
  }

  /** txt/md to DOCX: one paragraph with one run; a Packer exception reaches the outer catch. */
  function TextToDocxStep(up: Upload, p: Providers): Step {
    var text := p.decode(up.data);
    match p.textToDocx(text)
    case Ok(doc) => Step(Produced(Binary(doc), DocxMime, ReplaceSuffix(up.name, ".docx")), [PackDocx(text)])
    case Err(_) => Step(Threw, [PackDocx(text)])
  }

  /** txt/md to TXT: the decoded text itself, as a string result. */
  function TextToTxtStep(up: Upload, p: Providers): Step {
    Step(Produced(Text(p.decode(up.data)), TextMime, ReplaceSuffix(up.name, ".txt")), [])
  }

  /** PDF to TXT with pdf-parse; a parser exception reaches the outer catch. */
  function PdfToTxtStep(up: Upload, p: Providers): Step {
    match p.pdfToText(up.data)
    case Ok(text) => Step(Produced(Text(text), TextMime, ReplaceSuffix(up.name, ".txt")), [ExtractText(up.data)])
    case Err(_) => Step(Threw, [ExtractText(up.data)])
  }

  /** PDF to jpg/png: page 1 at scale 2 on a canvas; every failure is answered with 400. */
  function PdfToImageStep(up: Upload, outExt: string, p: Providers): Step {
    if !p.canvasLoads then
      Step(Answered(400, "PDF to " + Upper(outExt)
        + " conversion requires native dependencies not available in serverless environment."), [])
    else
      var enc := RasterEncoding(outExt);
      var call := RenderPdfPage(up.data, PdfPage, PdfScale, enc);
      match p.renderPdfPage(up.data, enc)
      case Ok(img) => Step(Produced(Binary(img), RasterMime(enc), ReplaceSuffix(up.name, "." + outExt)), [call])
      case Err(m) => Step(Answered(400, "PDF to " + Upper(outExt) + " conversion failed: " + m), [call])
  }

  /** txt/md to an image: the laid-out lines drawn on a canvas; every failure is answered with 400. */
  function TextToImageStep(up: Upload, inExt: string, outExt: string, p: Providers): Step {
    if !p.canvasLoads then Step(Answered(400, TextImageError(inExt, outExt)), [])
    else
      var enc := RasterEncoding(outExt);
      var draws := Layout(p.decode(up.data));
      match p.renderText(draws, enc)
      case Ok(img) =>
        Step(Produced(Binary(img), RasterMime(enc), ReplaceSuffix(up.name, "." + outExt)), [RenderText(draws, enc)])
      case Err(_) => Step(Answered(400, TextImageError(inExt, outExt)), [RenderText(draws, enc)])
  }

  /** General FFmpeg conversion with the profile's options and the table's content type. */
  function TranscodeStep(up: Upload, inExt: string, outExt: string, p: Providers): Step {
    if p.mkdtempFails then Step(Threw, [])
    else
      var job := MakeJob(up, inExt, "output." + outExt, ProfileOptions(ProfileFor(inExt, outExt)));
      match p.ffmpeg(job)
      case Rendered(out) =>
        Step(Produced(Binary(out), ContentTypeFor(outExt), ReplaceSuffix(up.name, "." + outExt)), [RunFfmpeg(job)])
      case RunError(m) =>
        Step(Answered(400, "Incompatible or invalid conversion: FFmpeg failed: " + m), [RunFfmpeg(job)])
      case FileError(m) =>
        Step(Answered(400, "Incompatible or invalid conversion: " + m), [RunFfmpeg(job)])
  }

  /** Execute the strategy Classify picked. */
  function Execute(s: Strategy, up: Upload, inExt: string, outExt: string, p: Providers): Step {
    match s
    case TextToPdf => TextToPdfStep(up, p)
    case ImageToPdf => ImageToPdfStep(up, inExt, p)
    case RejectPdf => Step(Answered(400, CannotConvert(inExt, "PDF")), [])
    case TextToDocx => TextToDocxStep(up, p)
    case RejectDocx => Step(Answered(400, CannotConvert(inExt, "DOCX")), [])
    case TextToTxt => TextToTxtStep(up, p)
    case PdfToTxt => PdfToTxtStep(up, p)
    case RejectTxt => Step(Answered(400, CannotConvert(inExt, "TXT")), [])
    case PdfToImage => PdfToImageStep(up, outExt, p)
    case TextToImage => TextToImageStep(up, inExt, outExt, p)
    case Transcode => TranscodeStep(up, inExt, outExt, p)
  }

  /** The end of the handler: the outer catch, the `!result` guard, and the success body. */
  function Finish(b: Branch): Response {
    match b
    case Threw => Failure(500, "Conversion failed")
    case Answered(status, error) => Failure(status, error)
    case Produced(result, contentType, filename) =>
      if result == Text("") then Failure(400, "Unsupported conversion")
      else Success(filename, contentType, result, Size(result))
  }

  /** The handler as classify-then-execute. */
  function Serve(form: Form, p: Providers): Run {
    match form
    case Unreadable => Run(Failure(400, "Invalid form data or upload failed"), [])
    case Form(file, format) =>
      if file.None? then Run(Failure(400, "No file provided"), [])
      else if format.None? || format.value == "" then Run(Failure(400, "No target format provided"), [])
      else
        var inExt := ExtensionOf(file.value.name);
        var outExt := Lower(format.value);
        var step := Execute(Classify(inExt, outExt), file.value, inExt, outExt, p);
        Run(Finish(step.branch), step.calls)
  }

  /** The extensions Serve derives from a well-formed request. */
  predicate WellFormed(form: Form) {
    form.Form? && form.file.Some? && form.format.Some? && form.format.value != ""
  }

  function InExt(form: Form): string requires WellFormed(form) {
    ExtensionOf(form.file.value.name)
  }

  function OutExt(form: Form): string requires WellFormed(form) {
    Lower(form.format.value)
  }

  /** The strategy step a well-formed request runs. */
  function StepOf(form: Form, p: Providers): Step requires WellFormed(form) {
    Execute(Classify(InExt(form), OutExt(form)), form.file.value, InExt(form), OutExt(form), p)
  }

  /** The requests that create a temporary directory: the two FFmpeg strategies, once mkdtemp works. */
  predicate UsesTempDir(form: Form, p: Providers) {
    WellFormed(form) && !p.mkdtempFails && Classify(InExt(form), OutExt(form)) in {ImageToPdf, Transcode}
  }

  // ---------------------------------------------------------------------
  // Properties of the strategy steps
  // ---------------------------------------------------------------------

  lemma ServeWellFormed(form: Form, p: Providers)
    requires WellFormed(form)
    ensures Serve(form, p) == Run(Finish(StepOf(form, p).branch), StepOf(form, p).calls)
  {
  }

  /** Every branch that produces a result names it after the output extension. */
  lemma ProducedShape(up: Upload, inExt: string, outExt: string, p: Providers)
    ensures var s := Classify(inExt, outExt);
      var b := Execute(s, up, inExt, outExt, p).branch;
      b.Produced? ==>
        && b.filename == ReplaceSuffix(up.name, "." + outExt)
        && b.contentType != ""
        && (b.result.Text? ==> s == TextToTxt || s == PdfToTxt)
  {
    var s := Classify(inExt, outExt);
    match s
    case ImageToPdf =>
      assert "." + outExt == ".pdf";
      if !p.mkdtempFails {
        FallbackProducesPdf(up, inExt, p);
      }
    case TextToPdf => assert "." + outExt == ".pdf";
    case TextToDocx => assert "." + outExt == ".docx";
    case TextToTxt => assert "." + outExt == ".txt";
    case PdfToTxt => assert "." + outExt == ".txt";
    case _ =>
  }

  lemma FallbackProducesPdf(up: Upload, inExt: string, p: Providers)
    ensures var b := ImagePdfFallbackStep(up, inExt, p).branch;
      b.Produced? ==> b == Produced(b.result, PdfMime, ReplaceSuffix(up.name, ".pdf")) && b.result.Binary?
  {
  }

  /**
    Image to PDF calls FFmpeg first; a further call happens exactly when that
    direct render failed. Every embed tells jsPDF PNG exactly when it gets a
    PNG: a png upload or an extracted first frame; jpg and jpeg uploads are
    embedded as JPEG from the uploaded bytes.
   */
  lemma ImageToPdfCalls(up: Upload, inExt: string, p: Providers)
    requires inExt in PdfImageInputs && !p.mkdtempFails
    ensures var calls := ImageToPdfStep(up, inExt, p).calls;
      var job := MakeJob(up, inExt, "output.pdf", []);
      && |calls| >= 1
      && calls[0] == RunFfmpeg(job)
      && (|calls| > 1 <==> !p.ffmpeg(job).Rendered?)
    ensures forall c :: c in ImageToPdfStep(up, inExt, p).calls && c.EmbedImage? ==>
      && (c.kind == PNG <==> inExt !in ["jpg", "jpeg"])
      && (c.kind == JPEG ==> c.image == up.data)
  {
    FallbackCoversImageInputs(inExt);
  }

  /** Which strategies make which provider calls, and with which fixed arguments. */
  lemma CallsBelongToStrategy(up: Upload, inExt: string, outExt: string, p: Providers, c: Call)
    requires c in Execute(Classify(inExt, outExt), up, inExt, outExt, p).calls
    ensures c.RunFfmpeg? ==> Classify(inExt, outExt) in {ImageToPdf, Transcode} && !p.mkdtempFails
    ensures c.RenderPdfPage? ==>
      Classify(inExt, outExt) == PdfToImage && c.page == 1 && c.scale == 2 && c.encoding == RasterEncoding(outExt)
    ensures c.RenderText? ==>
      Classify(inExt, outExt) == TextToImage && c.draws == Layout(p.decode(up.data)) &&
      c.encoding == RasterEncoding(outExt)
  {
    StepCalls(Classify(inExt, outExt), up, inExt, outExt, p, c);
  }

  /** The same, for any strategy, so that the classification need not be unfolded. */
  lemma StepCalls(s: Strategy, up: Upload, inExt: string, outExt: string, p: Providers, c: Call)
    requires c in Execute(s, up, inExt, outExt, p).calls
    ensures c.RunFfmpeg? ==> s in {ImageToPdf, Transcode} && !p.mkdtempFails
    ensures c.RenderPdfPage? ==> s == PdfToImage && c.page == 1 && c.scale == 2 && c.encoding == RasterEncoding(outExt)
    ensures c.RenderText? ==> s == TextToImage && c.draws == Layout(p.decode(up.data)) && c.encoding == RasterEncoding(outExt)
  {
    match s
    case ImageToPdf => ImageToPdfCallKinds(up, inExt, p);
    case PdfToImage => PdfToImageCallKinds(up, outExt, p);
    case TextToImage => TextToImageCallKinds(up, inExt, outExt, p);
    case Transcode => TranscodeCallKinds(up, inExt, outExt, p);
    case TextToPdf =>
    case TextToDocx =>
    case TextToTxt =>
    case PdfToTxt =>
    case RejectPdf =>
    case RejectDocx =>
    case RejectTxt =>
  }

  lemma ImageToPdfCallKinds(up: Upload, inExt: string, p: Providers)
    ensures forall c :: c in ImageToPdfStep(up, inExt, p).calls ==> (c.EmbedImage? || c.RunFfmpeg?) && !p.mkdtempFails
  {
  }

  lemma PdfToImageCallKinds(up: Upload, outExt: string, p: Providers)
    ensures forall c :: c in PdfToImageStep(up, outExt, p).calls ==>
      c == RenderPdfPage(up.data, 1, 2, RasterEncoding(outExt))
  {
  }

  lemma TextToImageCallKinds(up: Upload, inExt: string, outExt: string, p: Providers)
    ensures forall c :: c in TextToImageStep(up, inExt, outExt, p).calls ==>
      c == RenderText(Layout(p.decode(up.data)), RasterEncoding(outExt))
  {
  }

  lemma TranscodeCallKinds(up: Upload, inExt: string, outExt: string, p: Providers)
    ensures forall c :: c in TranscodeStep(up, inExt, outExt, p).calls ==> c.RunFfmpeg? && !p.mkdtempFails
  {
  }

  // ---------------------------------------------------------------------
  // Properties of Serve
  // ---------------------------------------------------------------------

  /**
    A request without a file or without a format is refused with 400 before any
    extension is derived or any provider is called, whatever the providers do.
   */
  lemma MissingFieldsRefused(form: Form, p: Providers)
    requires !WellFormed(form)
    ensures Serve(form, p).calls == []
    ensures Serve(form, p).response.Failure? && Serve(form, p).response.status == 400
    ensures form.Unreadable? ==> Serve(form, p).response.error == "Invalid form data or upload failed"
    ensures form.Form? && form.file.None? ==> Serve(form, p).response.error == "No file provided"
    ensures form.Form? && form.file.Some? ==> Serve(form, p).response.error == "No target format provided"
  {
  }

  /** A refused pair is answered with 400 naming both sides, and no provider is called. */
  lemma RejectedPairsCallNothing(form: Form, p: Providers)
    requires WellFormed(form) && IsRejection(Classify(InExt(form), OutExt(form)))
    ensures Serve(form, p).calls == []
    ensures Serve(form, p).response == Failure(400, CannotConvert(InExt(form), Upper(OutExt(form))))
  {
    ServeWellFormed(form, p);
    var o := OutExt(form);
    if o == "pdf" { assert Upper(o) == "PDF"; }
    else if o == "docx" { assert Upper(o) == "DOCX"; }
    else { assert Upper(o) == "TXT"; }
  }

  /**
    Every success names its file by replacing the upload's suffix with "." and
    the lower-cased format, carries a content type, and reports the size of
    its data; its data is never the empty string, and only the txt strategies
    answer with a string.
   */
  lemma SuccessShape(form: Form, p: Providers)
    requires Serve(form, p).response.Success?
    ensures WellFormed(form)
    ensures var r := Serve(form, p).response;
      && r.filename == ReplaceSuffix(form.file.value.name, "." + OutExt(form))
      && r.contentType != ""
      && r.size == Size(r.data)
      && r.data != Text("")
      && (r.data.Text? ==> Classify(InExt(form), OutExt(form)) in {TextToTxt, PdfToTxt})
  {
    SuccessNeedsFields(form, p);
    ServeWellFormed(form, p);
    ProducedShape(form.file.value, InExt(form), OutExt(form), p);
    FinishSuccess(StepOf(form, p).branch);
  }

  lemma FinishSuccess(b: Branch)
    requires Finish(b).Success?
    ensures b.Produced? && b.result != Text("")
    ensures Finish(b) == Success(b.filename, b.contentType, b.result, Size(b.result))
  {
  }

  lemma SuccessNeedsFields(form: Form, p: Providers)
    requires Serve(form, p).response.Success?
    ensures WellFormed(form)
  {
    if !WellFormed(form) {
      MissingFieldsRefused(form, p);
    }
  }

  /**
    The `!result` guard turns a produced result into a failure exactly when it
    is the empty string; a zero-length Buffer is truthy and is served as a
    success of size 0.
   */
  lemma EmptyResultGuard(form: Form, p: Providers)
    requires WellFormed(form) && StepOf(form, p).branch.Produced?
    ensures var result := StepOf(form, p).branch.result;
      && (Serve(form, p).response.Failure? <==> result == Text(""))
      && (Serve(form, p).response.Failure? ==> Serve(form, p).response == Failure(400, "Unsupported conversion"))
      && (result == Binary([]) ==> Serve(form, p).response.Success? && Serve(form, p).response.size == 0)
  {
    ServeWellFormed(form, p);
  }

  /**
    Image to PDF calls FFmpeg first, and anything else only after that direct
    render failed; in the fallback, jsPDF is told PNG exactly for png uploads
    and extracted first frames, and gets the uploaded bytes as JPEG otherwise.
   */
  lemma FallbackOnlyAfterDirectRenderFails(form: Form, p: Providers)
    requires WellFormed(form) && Classify(InExt(form), OutExt(form)) == ImageToPdf && !p.mkdtempFails
    ensures var calls := Serve(form, p).calls;
      var job := MakeJob(form.file.value, InExt(form), "output.pdf", []);
      && |calls| >= 1
      && calls[0] == RunFfmpeg(job)
      && (|calls| > 1 <==> !p.ffmpeg(job).Rendered?)
    ensures forall c :: c in Serve(form, p).calls && c.EmbedImage? ==>
      && (c.kind == PNG <==> InExt(form) !in ["jpg", "jpeg"])
      && (c.kind == JPEG ==> c.image == form.file.value.data)
  {
    ServeWellFormed(form, p);
    ImageToPdfCalls(form.file.value, InExt(form), p);
  }

  /**
    The PDF and text bridges return PNG bytes labelled image/png only for a
    png output; jpg, jpeg, webp and avif outputs all get JPEG bytes labelled
    image/jpeg, under a name with the requested extension.
   */
  lemma BridgesEncodeJpegUnlessPng(form: Form, p: Providers)
    requires WellFormed(form) && Classify(InExt(form), OutExt(form)) in {PdfToImage, TextToImage}
    requires Serve(form, p).response.Success?
    ensures Serve(form, p).response.contentType == (if OutExt(form) == "png" then "image/png" else "image/jpeg")
    ensures Serve(form, p).response.data.Binary?
  {
    ServeWellFormed(form, p);
  }

  /**
    FFmpeg runs only for the image to PDF and general strategies, inside a
    temporary directory; pdfjs renders only page 1 at scale 2, and only for
    PDF to jpg/png; the text bridge draws exactly the layout of the decoded
    upload: at most 20 lines of at most 80 characters, at baselines up to 410.
   */
  lemma CallsAreConfined(form: Form, p: Providers, c: Call)
    requires c in Serve(form, p).calls
    ensures WellFormed(form)
    ensures c.RunFfmpeg? ==> UsesTempDir(form, p)
    ensures c.RenderPdfPage? ==> Classify(InExt(form), OutExt(form)) == PdfToImage && c.page == 1 && c.scale == 2
    ensures c.RenderText? ==>
      && Classify(InExt(form), OutExt(form)) == TextToImage
      && c.draws == Layout(p.decode(form.file.value.data))
      && |c.draws| <= MaxLines
      && (forall d :: d in c.draws ==> |d.text| <= MaxColumns && d.y <= 410)
  {
    ServeWellFormed(form, p);
    CallsBelongToStrategy(form.file.value, InExt(form), OutExt(form), p, c);
    if c.RenderText? {
      var text := p.decode(form.file.value.data);
      LayoutDrawsEveryKeptLine(text);
      forall d | d in c.draws ensures |d.text| <= MaxColumns && d.y <= 410 {
        var i :| 0 <= i < |c.draws| && c.draws[i] == d;
      }
    }
  }

  /** Early answers inside the strategies are all 400s. */
  lemma StepAnswersAre400(up: Upload, inExt: string, outExt: string, p: Providers)
    ensures var b := Execute(Classify(inExt, outExt), up, inExt, outExt, p).branch;
      b.Answered? ==> b.status == 400
  {
  }

  /** The handler answers 200 on success, and otherwise 400 or, for an exception, 500. */
  lemma FailureStatuses(form: Form, p: Providers)
    requires Serve(form, p).response.Failure?
    ensures Serve(form, p).response.status == 400 || Serve(form, p).response.status == 500
    ensures Serve(form, p).response.status == 500 ==> Serve(form, p).response.error == "Conversion failed"
  {
    if WellFormed(form) {
      ServeWellFormed(form, p);
      StepAnswersAre400(form.file.value, InExt(form), OutExt(form), p);
    }
  }

  /**
    The general FFmpeg branch runs one job with the profile's options into
    "output." + the lower-cased format, and labels success from the table.
   */
  lemma TranscodeRunsOneProfiledJob(form: Form, p: Providers)
    requires WellFormed(form) && Classify(InExt(form), OutExt(form)) == Transcode && !p.mkdtempFails
    ensures |Serve(form, p).calls| == 1 && Serve(form, p).calls[0].RunFfmpeg?
    ensures var job := Serve(form, p).calls[0].job;
      && job.input == form.file.value.data
      && job.inputName == "input." + InExt(form)
      && job.outputName == "output." + OutExt(form)
      && job.options == ProfileOptions(ProfileFor(InExt(form), OutExt(form)))
    ensures Serve(form, p).response.Success? ==> Serve(form, p).response.contentType == ContentTypeFor(OutExt(form))
  {
    ServeWellFormed(form, p);
  }
}
