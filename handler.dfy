/**
  The `/api/convert` handler as the step-by-step code it is: mutable result
  locals, early returns, exceptions caught by an outer handler, temporary
  directories released in `finally` blocks, and the text drawing loop. Each
  method is proved against the matching function of Dispatch, so the handler
  as a whole answers exactly `Serve(form, p).response`.
 */
module Handler {
  import opened Common
  import opened FileNames
  import opened Dispatch

  /**
    What the handler changes outside its own locals: the temporary directories
    on disk, the provider calls made, and the cleanup errors logged.
   */
  class Host {
    /** Temporary directories currently on disk. */
    var live: set<nat>
    /** The name the next mkdtempSync hands out; every earlier name is used. */
    var next: nat
    /** Provider calls made so far, oldest first. */
    var calls: seq<Call>
    /** rmSync failures that were logged and swallowed. */
    var cleanupErrors: nat
    /** Whether rmSync throws on this host. */
    const rmFails: bool

    ghost predicate Valid()
      reads this
    {
      forall d :: d in live ==> d < next
    }

    constructor(rmFails: bool)
      ensures Valid()
      ensures live == {} && next == 0 && calls == [] && cleanupErrors == 0
      ensures this.rmFails == rmFails
    {
      live := {};
      next := 0;
      calls := [];
      cleanupErrors := 0;
      this.rmFails := rmFails;
    }

    /** The temporary directories are as they were and nothing was logged. */
    twostate predicate NoTempDir()
      reads this
    {
      next == old(next) && live == old(live) && cleanupErrors == old(cleanupErrors)
    }

    /**
      One fresh directory was created and released: removed from disk, or left
      behind with one cleanup error when rmSync fails.
     */
    twostate predicate OneTempDirReleased()
      reads this
    {
      && next == old(next) + 1
      && old(next) !in old(live)
      && live == (if rmFails then old(live) + {old(next)} else old(live))
      && cleanupErrors == old(cleanupErrors) + (if rmFails then 1 else 0)
    }

    /** fs.mkdtempSync: a directory that did not exist before. */
    method MakeTempDir() returns (dir: nat)
      requires Valid()
      modifies this
      ensures Valid()
      ensures dir == old(next) && dir !in old(live)
      ensures live == old(live) + {dir} && next == old(next) + 1
      ensures calls == old(calls) && cleanupErrors == old(cleanupErrors)
    {
      dir := next;
      live := live + {dir};
      next := next + 1;
    }

    /** The `finally` block: rmSync, whose failure is logged and swallowed. */
    method RemoveTempDir(dir: nat)
      requires Valid()
      modifies this
      ensures Valid()
      ensures live == (if rmFails then old(live) else old(live) - {dir})
      ensures cleanupErrors == old(cleanupErrors) + (if rmFails then 1 else 0)
      ensures calls == old(calls) && next == old(next)
    {
      if rmFails {
        cleanupErrors := cleanupErrors + 1;
      } else {
        live := live - {dir};
      }
    }

    /** Log one provider call. */
    method Record(c: Call)
      modifies this
      ensures calls == old(calls) + [c]
      ensures live == old(live) && next == old(next) && cleanupErrors == old(cleanupErrors)
    {
      calls := calls + [c];
    }

    /** txt/md to PDF. */
    method TextToPdfBranch(up: Upload, p: Providers) returns (b: Branch)
      modifies this
      ensures b == TextToPdfStep(up, p).branch
      ensures calls == old(calls) + TextToPdfStep(up, p).calls
      ensures NoTempDir()
    {
      var text := p.decode(up.data);
      Record(RenderTextPdf(text));
      var pdf := p.textToPdf(text);
      if pdf.Err? {
        return Threw;
      }
      b := Produced(Binary(pdf.value), PdfMime, ReplaceSuffix(up.name, ".pdf"));
    }

    /** The catch block after the direct FFmpeg render to PDF failed. */
    method ImagePdfFallback(up: Upload, inExt: string, p: Providers) returns (b: Branch)
      modifies this
      ensures b == ImagePdfFallbackStep(up, inExt, p).branch
      ensures calls == old(calls) + ImagePdfFallbackStep(up, inExt, p).calls
      ensures NoTempDir()
    {
      var refused := Answered(400, CannotConvert(inExt, "PDF"));
      if inExt in DirectEmbedInputs {
        var kind := if inExt == "png" then PNG else JPEG;
        Record(EmbedImage(up.data, kind));
        var pdf := p.imageToPdf(up.data, kind);
        if pdf.Err? {
          return Threw;
        }
        b := Produced(Binary(pdf.value), PdfMime, ReplaceSuffix(up.name, ".pdf"));
      } else if inExt in FirstFrameInputs {
        var job := MakeJob(up, inExt, "temp.png", FirstFrameOptions);
        Record(RunFfmpeg(job));
        var frame := p.ffmpeg(job);
        if !frame.Rendered? {
          return refused;
        }
        Record(EmbedImage(frame.data, PNG));
        var pdf := p.imageToPdf(frame.data, PNG);
        if pdf.Err? {
          return refused;
        }
        b := Produced(Binary(pdf.value), PdfMime, ReplaceSuffix(up.name, ".pdf"));
      } else {
        b := refused;
      }
    }

    /**
      Image to PDF: a temporary directory, FFmpeg first, the fallback when it
      fails, and the directory released on every path out of the try block.
     */
    method ImageToPdfBranch(up: Upload, inExt: string, p: Providers) returns (b: Branch)
      requires Valid()
      modifies this
      ensures Valid()
      ensures b == ImageToPdfStep(up, inExt, p).branch
      ensures calls == old(calls) + ImageToPdfStep(up, inExt, p).calls
      ensures if p.mkdtempFails then NoTempDir() else OneTempDirReleased()
    {
      if p.mkdtempFails {
        return Threw;
      }
      var dir := MakeTempDir();
      var job := MakeJob(up, inExt, "output.pdf", []);
      Record(RunFfmpeg(job));
      var out := p.ffmpeg(job);
      if out.Rendered? {
        b := Produced(Binary(out.data), PdfMime, ReplaceSuffix(up.name, ".pdf"));
      } else {
        b := ImagePdfFallback(up, inExt, p);
      }
      RemoveTempDir(dir);
    }

    /** txt/md to DOCX. */
    method TextToDocxBranch(up: Upload, p: Providers) returns (b: Branch)
      modifies this
      ensures b == TextToDocxStep(up, p).branch
      ensures calls == old(calls) + TextToDocxStep(up, p).calls
      ensures NoTempDir()
    {
      var text := p.decode(up.data);
      Record(PackDocx(text));
      var doc := p.textToDocx(text);
      if doc.Err? {
        return Threw;
      }
      b := Produced(Binary(doc.value), DocxMime, ReplaceSuffix(up.name, ".docx"));
    }

    /** PDF to TXT. */
    method PdfToTxtBranch(up: Upload, p: Providers) returns (b: Branch)
      modifies this
      ensures b == PdfToTxtStep(up, p).branch
      ensures calls == old(calls) + PdfToTxtStep(up, p).calls
      ensures NoTempDir()
    {
      Record(ExtractText(up.data));
      var text := p.pdfToText(up.data);
      if text.Err? {
        return Threw;
      }
      b := Produced(Text(text.value), TextMime, ReplaceSuffix(up.name, ".txt"));
    }

    /** PDF to jpg/png through pdfjs and a canvas. */
    method PdfToImageBranch(up: Upload, outExt: string, p: Providers) returns (b: Branch)
      modifies this
      ensures b == PdfToImageStep(up, outExt, p).branch
      ensures calls == old(calls) + PdfToImageStep(up, outExt, p).calls
      ensures NoTempDir()
    {
      if !p.canvasLoads {
        return Answered(400, "PDF to " + Upper(outExt)
          + " conversion requires native dependencies not available in serverless environment.");
      }
      var enc := if outExt == "png" then PngBytes else JpegBytes;
      Record(RenderPdfPage(up.data, PdfPage, PdfScale, enc));
      var img := p.renderPdfPage(up.data, enc);
      if img.Err? {
        return Answered(400, "PDF to " + Upper(outExt) + " conversion failed: " + img.message);
      }
      var contentType := if outExt == "png" then "image/png" else "image/jpeg";
      b := Produced(Binary(img.value), contentType, ReplaceSuffix(up.name, "." + outExt));
    }

    /** txt/md to an image: the drawing loop, then the canvas encoding. */
    method TextToImageBranch(up: Upload, inExt: string, outExt: string, p: Providers) returns (b: Branch)
      modifies this
      ensures b == TextToImageStep(up, inExt, outExt, p).branch
      ensures calls == old(calls) + TextToImageStep(up, inExt, outExt, p).calls
      ensures NoTempDir()
    {
      if !p.canvasLoads {
        return Answered(400, TextImageError(inExt, outExt));
      }
      var draws := DrawLines(Lines(p.decode(up.data)));
      var enc := if outExt == "png" then PngBytes else JpegBytes;
      Record(RenderText(draws, enc));
      var img := p.renderText(draws, enc);
      if img.Err? {
        return Answered(400, TextImageError(inExt, outExt));
      }
      var contentType := if outExt == "png" then "image/png" else "image/jpeg";
      b := Produced(Binary(img.value), contentType, ReplaceSuffix(up.name, "." + outExt));
    }

    /**
      General FFmpeg conversion: a temporary directory, one job with the
      profile's options, and the directory released on every path.
     */
    method TranscodeBranch(up: Upload, inExt: string, outExt: string, p: Providers) returns (b: Branch)
      requires Valid()
      modifies this
      ensures Valid()
      ensures b == TranscodeStep(up, inExt, outExt, p).branch
      ensures calls == old(calls) + TranscodeStep(up, inExt, outExt, p).calls
      ensures if p.mkdtempFails then NoTempDir() else OneTempDirReleased()
    {
      if p.mkdtempFails {
        return Threw;
      }
      var dir := MakeTempDir();
      var job := MakeJob(up, inExt, "output." + outExt, ProfileOptions(ProfileFor(inExt, outExt)));
      Record(RunFfmpeg(job));
      var out := p.ffmpeg(job);
      match out {
        case Rendered(data) =>
          b := Produced(Binary(data), ContentTypeFor(outExt), ReplaceSuffix(up.name, "." + outExt));
        case RunError(m) =>
          b := Answered(400, "Incompatible or invalid conversion: FFmpeg failed: " + m);
        case FileError(m) =>
          b := Answered(400, "Incompatible or invalid conversion: " + m);
      }
      RemoveTempDir(dir);
    }

    /** The branches for pdf, docx and txt outputs. */
    method DocumentBranch(up: Upload, inExt: string, outExt: string, p: Providers) returns (b: Branch)
      requires Valid() && outExt in ["pdf", "docx", "txt"]
      modifies this
      ensures Valid()
      ensures b == Execute(Classify(inExt, outExt), up, inExt, outExt, p).branch
      ensures calls == old(calls) + Execute(Classify(inExt, outExt), up, inExt, outExt, p).calls
      ensures if Classify(inExt, outExt) == ImageToPdf && !p.mkdtempFails then OneTempDirReleased() else NoTempDir()
    {
      if outExt == "pdf" {
        if inExt in TextInputs {
          b := TextToPdfBranch(up, p);
        } else if inExt in PdfImageInputs {
          b := ImageToPdfBranch(up, inExt, p);
        } else {
          b := Answered(400, CannotConvert(inExt, "PDF"));
        }
      } else if outExt == "docx" {
        if inExt in TextInputs {
          b := TextToDocxBranch(up, p);
        } else {
          b := Answered(400, CannotConvert(inExt, "DOCX"));
        }
      } else {
        if inExt in TextInputs {
          b := Produced(Text(p.decode(up.data)), TextMime, ReplaceSuffix(up.name, ".txt"));
        } else if inExt == "pdf" {
          b := PdfToTxtBranch(up, p);
        } else {
          b := Answered(400, CannotConvert(inExt, "TXT"));
        }
      }
    }

    /** The branches for every other output: the two image bridges, then FFmpeg. */
    method MediaBranch(up: Upload, inExt: string, outExt: string, p: Providers) returns (b: Branch)
      requires Valid() && outExt !in ["pdf", "docx", "txt"]
      modifies this
      ensures Valid()
      ensures b == Execute(Classify(inExt, outExt), up, inExt, outExt, p).branch
      ensures calls == old(calls) + Execute(Classify(inExt, outExt), up, inExt, outExt, p).calls
      ensures if Classify(inExt, outExt) == Transcode && !p.mkdtempFails then OneTempDirReleased() else NoTempDir()
    {
      if inExt == "pdf" && (outExt == "jpg" || outExt == "png") {
        assert Classify(inExt, outExt) == PdfToImage;
        ExecutesPdfToImage(up, inExt, outExt, p);
        b := PdfToImageBranch(up, outExt, p);
      } else if inExt in TextInputs && outExt in TextImageOutputs {
        assert Classify(inExt, outExt) == TextToImage;
        ExecutesTextToImage(up, inExt, outExt, p);
        b := TextToImageBranch(up, inExt, outExt, p);
      } else {
        assert Classify(inExt, outExt) == Transcode;
        ExecutesTranscode(up, inExt, outExt, p);
        b := TranscodeBranch(up, inExt, outExt, p);
      }
    }

    /** The handler's if/else chain, first match wins. */
    method StrategyBranch(up: Upload, inExt: string, outExt: string, p: Providers) returns (b: Branch)
      requires Valid()
      modifies this
      ensures Valid()
      ensures b == Execute(Classify(inExt, outExt), up, inExt, outExt, p).branch
      ensures calls == old(calls) + Execute(Classify(inExt, outExt), up, inExt, outExt, p).calls
      ensures if Classify(inExt, outExt) in {ImageToPdf, Transcode} && !p.mkdtempFails
        then OneTempDirReleased() else NoTempDir()
    {
      if outExt == "pdf" || outExt == "docx" || outExt == "txt" {
        b := DocumentBranch(up, inExt, outExt, p);
      } else {
        b := MediaBranch(up, inExt, outExt, p);
      }
    }

    /**
      POST /api/convert. The response is the one Serve specifies and the
      provider calls are Serve's, in order. A temporary directory is created
      exactly when an FFmpeg strategy runs, and it is gone afterwards unless
      rmSync failed, in which case one cleanup error is logged.
     */
    method HandleConvert(form: Form, p: Providers) returns (resp: Response)
      requires Valid()
      modifies this
      ensures Valid()
      ensures resp == Serve(form, p).response
      ensures calls == old(calls) + Serve(form, p).calls
      ensures if UsesTempDir(form, p) then OneTempDirReleased() else NoTempDir()
    {
      if form.Unreadable? {
        return Failure(400, "Invalid form data or upload failed");
      }
      if form.file.None? {
        return Failure(400, "No file provided");
      }
      if form.format.None? || form.format.value == "" {
        return Failure(400, "No target format provided");
      }
      var up := form.file.value;
      var inExt := ExtensionOf(up.name);
      var outExt := Lower(form.format.value);
      var b := StrategyBranch(up, inExt, outExt, p);
      ServeWellFormed(form, p);

      match b
      case Threw =>
        resp := Failure(500, "Conversion failed");
      case Answered(status, error) =>
        resp := Failure(status, error);
      case Produced(result, contentType, filename) =>
        if result == Text("") {
          resp := Failure(400, "Unsupported conversion");
        } else {
          resp := Success(filename, contentType, result, Size(result));
        }
    }
  }

  /** Execute runs the step of the strategy Classify picked; one lemma per media strategy. */
  lemma ExecutesPdfToImage(up: Upload, inExt: string, outExt: string, p: Providers)
    requires Classify(inExt, outExt) == PdfToImage
    ensures Execute(Classify(inExt, outExt), up, inExt, outExt, p) == PdfToImageStep(up, outExt, p)
  {
  }

  lemma ExecutesTextToImage(up: Upload, inExt: string, outExt: string, p: Providers)
    requires Classify(inExt, outExt) == TextToImage
    ensures Execute(Classify(inExt, outExt), up, inExt, outExt, p) == TextToImageStep(up, inExt, outExt, p)
  {
  }

  lemma ExecutesTranscode(up: Upload, inExt: string, outExt: string, p: Providers)
    requires Classify(inExt, outExt) == Transcode
    ensures Execute(Classify(inExt, outExt), up, inExt, outExt, p) == TranscodeStep(up, inExt, outExt, p)
  {
  }

  /**
    The drawing loop: from y = 30, stop as soon as y passes 580, otherwise
    draw the line cut to 80 characters at x = 20 and move down 20.
   */
  method DrawLines(lines: seq<string>) returns (draws: seq<Draw>)
    ensures draws == LayoutFrom(lines, FirstBaseline)
  {
    draws := [];
    var y := FirstBaseline;
    var i := 0;
    while i < |lines|
      invariant 0 <= i <= |lines|
      invariant draws + LayoutFrom(lines[i..], y) == LayoutFrom(lines, FirstBaseline)
    {
      if y > LastBaseline {
        break;
      }
      var line := lines[i];
      assert lines[i..][1..] == lines[i + 1..];
      draws := draws + [Draw(Clip(line), LeftMargin, y)];
      y := y + LineHeight;
      i := i + 1;
    }
  }
}
