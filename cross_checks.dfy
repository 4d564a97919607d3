/**
  Facts that relate the client's registry and request code to the server's
  handler: which requests the client lets through, what the server makes of
  them, and how the two name the converted file.
 */
module CrossChecks {
  import opened Common
  import opened FileNames
  import opened Formats
  import opened Dispatch

  /** The HTTP status of a handler response. */
  function StatusOf(r: Response): int {
    if r.Success? then 200 else r.status
  }

  /** The request convertFile sends for a file and a format. */
  function ClientRequest(name: string, data: Bytes, outputFormat: string): Form {
    Form(Some(Upload(name, data)), Some(outputFormat))
  }

  /** Every format the client offers is lower case and non-empty, so the server's lowercasing keeps it. */
  lemma OfferedFormatsReachServerUnchanged(name: string, outputFormat: string)
    requires CheckSupported(name, outputFormat).Ok?
    ensures outputFormat != ""
    ensures Lower(outputFormat) == outputFormat
  {
    assert outputFormat in SupportedOutputFormats(name);
    OfferedAreLowerCase(name);
    OfferedAreNonEmpty(name);
    LowerIsLowerCase(outputFormat);
  }

  lemma VideoPairsServed(ext: string, f: string)
    requires ext in Inputs(Video) && f in Outputs(Video)
    ensures !IsRejection(Classify(ext, f))
  {
  }

  lemma AudioPairsServed(ext: string, f: string)
    requires ext in Inputs(Audio) && f in Outputs(Audio)
    ensures !IsRejection(Classify(ext, f))
  {
  }

  lemma ImagePairsServed(ext: string, f: string)
    requires ext in Inputs(Image) && f in Outputs(Image)
    ensures !IsRejection(Classify(ext, f))
  {
  }

  lemma DocumentPairsServed(ext: string, f: string)
    requires ext in Inputs(Document) && f in Outputs(Document) && f != ext
    ensures IsRejection(Classify(ext, f)) <==> ext == "pdf" && f == "docx"
  {
  }

  /**
    Of all the pairs the client offers, the server's classification refuses
    exactly one: pdf to docx. Every other offered pair reaches a strategy.
   */
  lemma OnlyPdfToDocxOfferedButRefused(name: string, outputFormat: string)
    requires CheckSupported(name, outputFormat).Ok?
    ensures IsRejection(Classify(ExtensionOf(name), Lower(outputFormat))) <==>
      ExtensionOf(name) == "pdf" && outputFormat == "docx"
  {
    OfferedFormatsReachServerUnchanged(name, outputFormat);
    var ext := ExtensionOf(name);
    match CategoryOf(ext)
    case None =>
    case Some(c) =>
      OffersFromCategory(name, c);
      CategoryOfIsUnique(ext, c);
      match c
      case Video => VideoPairsServed(ext, outputFormat);
      case Audio => AudioPairsServed(ext, outputFormat);
      case Image => ImagePairsServed(ext, outputFormat);
      case Document => DocumentPairsServed(ext, outputFormat);
  }

  /**
    A PDF passes the client's check for docx, and the server then refuses it
    with 400 without calling any provider.
   */
  lemma PdfToDocxPassesClientFailsServer(name: string, data: Bytes, p: Providers)
    requires ExtensionOf(name) == "pdf"
    ensures CheckSupported(name, "docx").Ok?
    ensures Serve(ClientRequest(name, data, "docx"), p) ==
      Run(Failure(400, "Cannot convert PDF to DOCX directly via document task."), [])
  {
    PdfOffersDocx(name);
    LowerDocx();
    PdfDocxRefused(ClientRequest(name, data, "docx"), p);
  }

  lemma PdfDocxRefused(form: Form, p: Providers)
    requires WellFormed(form) && InExt(form) == "pdf" && OutExt(form) == "docx"
    ensures Serve(form, p) == Run(Failure(400, "Cannot convert PDF to DOCX directly via document task."), [])
  {
    RejectedPairsCallNothing(form, p);
    PdfDocxMessage();
  }

  lemma PdfDocxMessage()
    ensures CannotConvert("pdf", Upper("docx")) == "Cannot convert PDF to DOCX directly via document task."
  {
    UpperPdfDocx();
  }

  lemma PdfOffersDocx(name: string)
    requires ExtensionOf(name) == "pdf"
    ensures "docx" in SupportedOutputFormats(name)
  {
    OffersFromCategory(name, Document);
    assert "docx" in Outputs(Document);
  }

  lemma LowerDocx()
    ensures Lower("docx") == "docx"
  {
    LowerIsLowerCase("docx");
  }

  lemma UpperPdfDocx()
    ensures Upper("pdf") == "PDF" && Upper("docx") == "DOCX"
  {
  }

  /**
    Client and server name the result alike when the name has a suffix to
    replace and the format has no `$`; for a name without a suffix the server
    keeps the name as it is while the client appends the extension.
   */
  lemma FileNamesAgreeWhenSuffixed(name: string, outputFormat: string)
    requires IsLowerCase(outputFormat)
    ensures SuffixStart(name).Some? && '$' !in outputFormat ==>
      ClientFileName(name, outputFormat) == ReplaceSuffix(name, "." + Lower(outputFormat))
    ensures SuffixStart(name).None? ==>
      && ReplaceSuffix(name, "." + Lower(outputFormat)) == name
      && ClientFileName(name, outputFormat) == name + "." + outputFormat
  {
    LowerIsLowerCase(outputFormat);
    ClientFileNameSpec(name, outputFormat);
  }

  /**
    The server expands `$` patterns of the requested format in the output
    name, while the client's template does not: a successful "x$&" request
    for "a.mp4" is named "a.x.mp4" by the server and would be "a.x$&" on the
    client, which never sends such a format because it is not offered.
   */
  lemma DollarFormatNamesDiffer(data: Bytes, p: Providers)
    ensures var form := ClientRequest("a.mp4", data, "x$&");
      Serve(form, p).response.Success? ==> Serve(form, p).response.filename == "a.x.mp4"
    ensures ClientFileName("a.mp4", "x$&") == "a.x$&"
    ensures CheckSupported("a.mp4", "x$&").Err?
  {
    LowerDollarFormat();
    ServerExpandsDollar(ClientRequest("a.mp4", data, "x$&"), p);
    ClientKeepsDollar();
    DollarNotOffered();
  }

  lemma ServerExpandsDollar(form: Form, p: Providers)
    requires WellFormed(form) && form.file.value.name == "a.mp4" && OutExt(form) == "x$&"
    ensures Serve(form, p).response.Success? ==> Serve(form, p).response.filename == "a.x.mp4"
  {
    if Serve(form, p).response.Success? {
      SuccessShape(form, p);
      DottedFormat(OutExt(form));
      DollarPatternExpands();
    }
  }

  lemma DottedFormat(f: string)
    requires f == "x$&"
    ensures "." + f == ".x$&"
  {
  }

  lemma ClientKeepsDollar()
    ensures ClientFileName("a.mp4", "x$&") == "a.x$&"
  {
    DollarPatternExpands();
    ReplaceSuffixShape("a.mp4", "");
    assert "a.mp4"[..1] == "a";
  }

  lemma DollarNotOffered()
    ensures CheckSupported("a.mp4", "x$&").Err?
  {
    OfferedArePlain("a.mp4");
    assert "x$&"[1] == '$';
  }

  lemma LowerDollarFormat()
    ensures Lower("x$&") == "x$&"
  {
    LowerIsLowerCase("x$&");
  }

  /**
    For a request the client lets through, the client's outcome follows the
    server's answer: a success is downloaded (under the server's own name when
    the upload has a suffix), and a 400 or 500 is a failure with that status.
   */
  lemma ClientFollowsServer(name: string, data: Bytes, outputFormat: string, p: Providers)
    requires CheckSupported(name, outputFormat).Ok?
    ensures var r := Serve(ClientRequest(name, data, outputFormat), p).response;
      && (r.Success? ==> ConvertFile(name, outputFormat, StatusOf(r)) == Downloaded(ClientFileName(name, outputFormat)))
      && (r.Failure? ==> ConvertFile(name, outputFormat, StatusOf(r)) == Failed(r.status))
    ensures var r := Serve(ClientRequest(name, data, outputFormat), p).response;
      r.Success? && SuffixStart(name).Some? ==> r.filename == ClientFileName(name, outputFormat)
  {
    var form := ClientRequest(name, data, outputFormat);
    var r := Serve(form, p).response;
    OfferedFormatsReachServerUnchanged(name, outputFormat);
    OfferedAreLowerCase(name);
    OfferedArePlain(name);
    if r.Failure? {
      FailureStatuses(form, p);
    }
    if r.Success? {
      SuccessShape(form, p);
      FileNamesAgreeWhenSuffixed(name, outputFormat);
    }
  }
}
