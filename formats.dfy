/**
  The client's capability registry: the static SUPPORTED_FORMATS table, the
  two lookups built on it, and the part of convertFile that runs before and
  after the upload (the pre-flight check and the result file name).
 */
module Formats {
  import opened Common
  import opened FileNames

  /** The table's keys, in the order Object.entries visits them. */
  datatype Category = Video | Audio | Image | Document

  const CategoryOrder: seq<Category> := [Video, Audio, Image, Document]

  /** The key under which a category is stored in SUPPORTED_FORMATS. */
  function Key(c: Category): string {
    match c
    case Video => "video"
    case Audio => "audio"
    case Image => "image"
    case Document => "document"
  }

  function Inputs(c: Category): seq<string> {
    match c
    case Video => ["mp4", "webm", "avi", "mov", "mkv", "flv", "wmv", "m4v"]
    case Audio => ["mp3", "wav", "ogg", "aac", "flac", "m4a", "wma"]
    case Image => ["jpg", "jpeg", "png", "gif", "webp", "bmp", "tiff", "avif"]
    case Document => ["pdf", "txt", "md"]
  }

  function Outputs(c: Category): seq<string> {
    match c
    case Video => ["mp4", "webm", "gif", "mp3", "wav", "aac"]
    case Audio => ["mp3", "wav", "ogg", "aac", "flac"]
    case Image => ["webp", "png", "jpg", "avif", "pdf"]
    case Document => ["pdf", "txt", "jpg", "png", "docx"]
  }

  /** The four input lists are pairwise disjoint: an extension belongs to at most one category. */
  lemma InputsDisjoint(c: Category, d: Category, ext: string)
    requires c != d
    ensures !(ext in Inputs(c) && ext in Inputs(d))
  {
  }

  /**
    Every category offers at least two distinct outputs, and every entry of
    the table is lower case.
   */
  lemma TableShape(c: Category)
    ensures exists i, j :: 0 <= i < j < |Outputs(c)| && Outputs(c)[i] != Outputs(c)[j]
    ensures forall f :: f in Outputs(c) ==> IsLowerCase(f)
    ensures forall e :: e in Inputs(c) ==> IsLowerCase(e)
    ensures "" !in Outputs(c)
  {
    assert Outputs(c)[0] != Outputs(c)[1];
  }

  /** Every output is a plain extension: non-empty, without '.', '/' or '$'. */
  lemma OutputsArePlain(c: Category)
    ensures forall f :: f in Outputs(c) ==> PlainExtension(f)
  {
    forall f | f in Outputs(c) ensures PlainExtension(f) {
      assert f in ["mp4", "webm", "gif", "mp3", "wav", "aac", "ogg", "flac", "webp", "png", "jpg", "avif", "pdf", "txt", "docx"];
    }
  }

  /** The for-of search: the first category of `cats` whose inputs contain `ext`. */
  function FirstCategory(ext: string, cats: seq<Category>): (r: Option<Category>)
    ensures r.Some? ==> r.value in cats && ext in Inputs(r.value)
    ensures r.None? <==> forall c :: c in cats ==> ext !in Inputs(c)
    ensures r.Some? ==> exists i :: 0 <= i < |cats| && cats[i] == r.value &&
                                    forall j :: 0 <= j < i ==> ext !in Inputs(cats[j])
  {
    if cats == [] then None
    else if ext in Inputs(cats[0]) then Some(cats[0])
    else
      var r := FirstCategory(ext, cats[1..]);
      if r.Some? then
        var i :| 0 <= i < |cats[1..]| && cats[1..][i] == r.value &&
                 forall j :: 0 <= j < i ==> ext !in Inputs(cats[1..][j]);
        assert cats[i + 1] == r.value;
        r
      else r
  }

  /** The category of an (already lower-cased) extension. */
  function CategoryOf(ext: string): Option<Category> {
    FirstCategory(ext, CategoryOrder)
  }

  /** Because the input lists are disjoint, the first match is the only match. */
  lemma CategoryOfIsUnique(ext: string, c: Category)
    ensures CategoryOf(ext) == Some(c) <==> ext in Inputs(c)
  {
    var r := CategoryOf(ext);
    if ext in Inputs(c) {
      assert c in CategoryOrder;
      if r.Some? && r.value != c {
        InputsDisjoint(r.value, c, ext);
      }
    }
  }

  /** `formats.output.filter((f) => f !== ext)`. */
  function Remove(s: seq<string>, x: string): (r: seq<string>)
    ensures forall y :: y in r <==> y in s && y != x
    ensures |r| <= |s|
  {
    if s == [] then []
    else if s[0] == x then Remove(s[1..], x)
    else [s[0]] + Remove(s[1..], x)
  }

  /** Filtering drops only the removed value: a list holding two distinct values keeps one of them. */
  lemma RemoveKeepsOther(s: seq<string>, x: string, i: nat, j: nat)
    requires i < j < |s| && s[i] != s[j]
    ensures Remove(s, x) != []
  {
    if s[i] != x {
      assert s[i] in Remove(s, x);
    } else {
      assert s[j] in Remove(s, x);
    }
  }

  /** Filtering out a value the list does not hold returns the list itself. */
  lemma {:induction false} RemoveAbsent(s: seq<string>, x: string)
    requires x !in s
    ensures Remove(s, x) == s
  {
    if s != [] {
      RemoveAbsent(s[1..], x);
    }
  }

  /** Filtering distributes over concatenation, so the kept entries stay in their order. */
  lemma {:induction false} RemoveAppend(a: seq<string>, b: seq<string>, x: string)
    ensures Remove(a + b, x) == Remove(a, x) + Remove(b, x)
  {
    if a == [] {
      assert a + b == b;
    } else {
      assert (a + b)[1..] == a[1..] + b;
      RemoveAppend(a[1..], b, x);
    }
  }

  /** Removing the one occurrence of a value closes the gap and keeps the order of the rest. */
  lemma RemoveOnlyOccurrence(a: seq<string>, x: string, b: seq<string>)
    requires x !in a && x !in b
    ensures Remove(a + [x] + b, x) == a + b
  {
    calc {
      Remove(a + [x] + b, x);
      { RemoveAppend(a + [x], b, x); }
      Remove(a + [x], x) + Remove(b, x);
      { RemoveAppend(a, [x], x); }
      Remove(a, x) + Remove([x], x) + Remove(b, x);
      { assert Remove([x], x) == []; RemoveAbsent(a, x); RemoveAbsent(b, x); }
      a + [] + b;
    }
    assert a + [] + b == a + b;
  }

  /** `getSupportedOutputFormats(inputFileName)`. */
  function SupportedOutputFormats(name: string): seq<string> {
    var ext := ExtensionOf(name);
    match CategoryOf(ext)
    case None => []
    case Some(c) => Remove(Outputs(c), ext)
  }

  /**
    The offered outputs are exactly the outputs of the category holding the
    extension, minus the extension itself; an unknown extension gets nothing,
    and a known one always gets at least one output.
   */
  lemma SupportedOutputsSpec(name: string)
    ensures var ext := ExtensionOf(name);
      && ext !in SupportedOutputFormats(name)
      && (SupportedOutputFormats(name) == [] <==> CategoryOf(ext).None?)
      && (forall c, f :: ext in Inputs(c) ==>
            (f in SupportedOutputFormats(name) <==> f in Outputs(c) && f != ext))
  {
    var ext := ExtensionOf(name);
    match CategoryOf(ext)
    case None =>
    case Some(c) =>
      TableShape(c);
      var i, j :| 0 <= i < j < |Outputs(c)| && Outputs(c)[i] != Outputs(c)[j];
      RemoveKeepsOther(Outputs(c), ext, i, j);
      forall d | ext in Inputs(d) ensures d == c {
        CategoryOfIsUnique(ext, d);
      }
  }

  /** No output list names a format twice. */
  lemma OutputsDistinct(c: Category)
    ensures forall a, b :: 0 <= a < b < |Outputs(c)| ==> Outputs(c)[a] != Outputs(c)[b]
  {
  }

  /** In a list without repeats, removing the entry at `i` closes the gap. */
  lemma RemoveAtIndex(o: seq<string>, i: nat)
    requires i < |o|
    requires forall a, b :: 0 <= a < b < |o| ==> o[a] != o[b]
    ensures Remove(o, o[i]) == o[..i] + o[i + 1..]
  {
    var head, x, tail := o[..i], o[i], o[i + 1..];
    assert o == head + [x] + tail;
    assert x !in head by {
      forall j | 0 <= j < |head| ensures head[j] != x {
        assert head[j] == o[j];
      }
    }
    assert x !in tail by {
      forall j | 0 <= j < |tail| ensures tail[j] != x {
        assert tail[j] == o[i + 1 + j];
      }
    }
    RemoveOnlyOccurrence(head, x, tail);
  }

  lemma OffersFromCategory(name: string, c: Category)
    requires ExtensionOf(name) in Inputs(c)
    ensures SupportedOutputFormats(name) == Remove(Outputs(c), ExtensionOf(name))
  {
    CategoryOfIsUnique(ExtensionOf(name), c);
  }

  /**
    The offered list is the category's output list in its own order: whole
    when the extension is not among the outputs, and otherwise with just that
    entry taken out.
   */
  lemma SupportedOutputsKeepOrder(name: string, c: Category)
    requires ExtensionOf(name) in Inputs(c)
    ensures ExtensionOf(name) !in Outputs(c) ==> SupportedOutputFormats(name) == Outputs(c)
    ensures forall i :: 0 <= i < |Outputs(c)| && Outputs(c)[i] == ExtensionOf(name) ==>
      SupportedOutputFormats(name) == Outputs(c)[..i] + Outputs(c)[i + 1..]
  {
    var ext := ExtensionOf(name);
    OffersFromCategory(name, c);
    if ext !in Outputs(c) {
      RemoveAbsent(Outputs(c), ext);
    }
    OutputsDistinct(c);
    forall i | 0 <= i < |Outputs(c)| && Outputs(c)[i] == ext
      ensures SupportedOutputFormats(name) == Outputs(c)[..i] + Outputs(c)[i + 1..]
    {
      RemoveAtIndex(Outputs(c), i);
    }
  }

  /** `getFileTypeCategory(fileName)`: the key of the same first-matching category, else "unknown". */
  function FileTypeCategory(name: string): string {
    match CategoryOf(ExtensionOf(name))
    case None => "unknown"
    case Some(c) => Key(c)
  }

  /**
    The category lookup and the output lookup agree: "unknown" exactly when no
    output is offered, and otherwise the key of the category whose outputs are
    offered.
   */
  lemma CategoryAgreesWithOutputs(name: string)
    ensures FileTypeCategory(name) == "unknown" <==> SupportedOutputFormats(name) == []
    ensures forall c :: FileTypeCategory(name) == Key(c) ==>
              SupportedOutputFormats(name) == Remove(Outputs(c), ExtensionOf(name))
  {
    SupportedOutputsSpec(name);
    forall c | FileTypeCategory(name) == Key(c)
      ensures CategoryOf(ExtensionOf(name)) == Some(c)
    {
      KeyInjective(c, CategoryOf(ExtensionOf(name)));
    }
  }

  lemma KeyInjective(c: Category, r: Option<Category>)
    requires Key(c) == match r case None => "unknown" case Some(d) => Key(d)
    ensures r == Some(c)
  {
  }

  /** The lookup answers "document" for pdf, txt and md, a key its declared return type does not list. */
  lemma DocumentCategory(name: string)
    ensures FileTypeCategory(name) == "document" <==> ExtensionOf(name) in Inputs(Document)
  {
    CategoryOfIsUnique(ExtensionOf(name), Document);
    if FileTypeCategory(name) == "document" {
      KeyInjective(Document, CategoryOf(ExtensionOf(name)));
    }
  }

  /** Extension without lower-casing, as the error message of convertFile takes it. */
  function RawExtension(name: string): string {
    LastSegment(name, '.')
  }

  /**
    convertFile's pre-flight check: Pass when the format is offered for the
    file, otherwise the error it throws before any request is made.
   */
  function CheckSupported(name: string, outputFormat: string): (r: Outcome<()>)
    ensures r.Ok? <==> outputFormat in SupportedOutputFormats(name)
    ensures r.Err? ==>
      r.message == "Incompatible conversion: " + Upper(RawExtension(name)) + " cannot be converted to " + Upper(outputFormat)
  {
    if outputFormat in SupportedOutputFormats(name) then Ok(())
    else Err("Incompatible conversion: " + Upper(RawExtension(name)) + " cannot be converted to " + Upper(outputFormat))
  }

  /** The membership test is case-sensitive: a format spelled with a capital is never accepted. */
  lemma CapitalFormatRejected(name: string, outputFormat: string)
    requires !IsLowerCase(outputFormat)
    ensures CheckSupported(name, outputFormat).Err?
  {
    OfferedAreLowerCase(name);
  }

  lemma OfferedAreLowerCase(name: string)
    ensures forall f :: f in SupportedOutputFormats(name) ==> IsLowerCase(f)
  {
    match CategoryOf(ExtensionOf(name))
    case None =>
    case Some(c) => TableShape(c);
  }

  /** Every offered format is a plain extension: no '.', '/' or '$'. */
  lemma OfferedArePlain(name: string)
    ensures forall f :: f in SupportedOutputFormats(name) ==> PlainExtension(f)
  {
    match CategoryOf(ExtensionOf(name))
    case None =>
    case Some(c) => OutputsArePlain(c);
  }

  /** `${inputFile.name.replace(/\.[^/.]+$/, "")}.${outputFormat}`. */
  function ClientFileName(name: string, outputFormat: string): string {
    StripSuffix(name) + "." + outputFormat
  }

  /**
    The client's result name always ends in "." + format, taken literally by
    the template; it agrees with the regex replacement when the name has a
    suffix and the format has no `$`, and otherwise the whole name gains the
    extension.
   */
  lemma ClientFileNameSpec(name: string, outputFormat: string)
    ensures SuffixStart(name).Some? ==>
      ClientFileName(name, outputFormat) == name[..SuffixStart(name).value] + "." + outputFormat
    ensures SuffixStart(name).Some? && '$' !in outputFormat ==>
      ClientFileName(name, outputFormat) == ReplaceSuffix(name, "." + outputFormat)
    ensures SuffixStart(name).None? ==>
      ClientFileName(name, outputFormat) == name + "." + outputFormat
    ensures var r := ClientFileName(name, outputFormat);
      |r| > |outputFormat| && r[|r| - |outputFormat| - 1..] == "." + outputFormat
  {
    ReplaceSuffixShape(name, "");
    match SuffixStart(name)
    case None =>
    case Some(k) =>
      assert StripSuffix(name) == name[..k];
      if '$' !in outputFormat {
        ReplaceSuffixShape(name, "." + outputFormat);
      }
  }

  /** No offered format is the empty string. */
  lemma OfferedAreNonEmpty(name: string)
    ensures "" !in SupportedOutputFormats(name)
  {
    match CategoryOf(ExtensionOf(name))
    case None =>
    case Some(c) => TableShape(c);
  }

  /** `xhr.status >= 200 && xhr.status < 300`: only these statuses count as success. */
  predicate IsSuccessStatus(status: int) {
    200 <= status < 300
  }

  /** What convertFile settles to, apart from the transport. */
  datatype ClientOutcome =
    | Rejected(message: string)   // thrown before the request
    | Downloaded(fileName: string) // 2xx response
    | Failed(status: int)          // any other status

  /** convertFile for a given server status: pre-flight check, then the onload decision. */
  function ConvertFile(name: string, outputFormat: string, status: int): (r: ClientOutcome)
    ensures r.Rejected? <==> outputFormat !in SupportedOutputFormats(name)
    ensures r.Downloaded? <==> outputFormat in SupportedOutputFormats(name) && 200 <= status < 300
    ensures r.Downloaded? ==> r.fileName == ClientFileName(name, outputFormat)
    ensures r.Failed? ==> r.status == status
  {
    match CheckSupported(name, outputFormat)
    case Err(m) => Rejected(m)
    case Ok(_) =>
      if IsSuccessStatus(status) then Downloaded(ClientFileName(name, outputFormat))
      else Failed(status)
  }
}
