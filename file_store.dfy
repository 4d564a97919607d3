/**
  The client's file queue: the list of FileItem records the converter works
  through, the actions that update it in place by id, the two selectors the
  UI reads, and the duration formatter.
 */
module FileStore {
  import opened Common
  import opened FileNames

  datatype Status = Pending | Converting | Completed | Error

  datatype Quality = Low | Medium | High | Ultra

  datatype ItemCategory = VideoItem | AudioItem | ImageItem | DocumentItem | TextItem | UnknownItem

  /** What a finished conversion hands back: the file and its name and size. */
  datatype ConversionResult = ConversionResult(blob: Bytes, fileName: string, size: int, duration: Option<int>)

  /** One queued file; the optional fields of the record are Options. */
  datatype FileItem = FileItem(
    id: string,
    file: Bytes,
    name: string,
    size: int,
    mimeType: string,
    category: ItemCategory,
    outputFormat: string,
    status: Status,
    progress: int,
    error: Option<string>,
    result: Option<ConversionResult>,
    quality: Quality,
    startTime: Option<int>,
    endTime: Option<int>,
    duration: Option<int>,
    thumbnail: Option<string>)

  /**
    `Partial<FileItem>` as Object.assign reads it: None leaves a field alone,
    Some(v) writes v; for an optional field Some(None) writes `undefined`.
   */
  datatype Patch = Patch(
    id: Option<string>,
    file: Option<Bytes>,
    name: Option<string>,
    size: Option<int>,
    mimeType: Option<string>,
    category: Option<ItemCategory>,
    outputFormat: Option<string>,
    status: Option<Status>,
    progress: Option<int>,
    error: Option<Option<string>>,
    result: Option<Option<ConversionResult>>,
    quality: Option<Quality>,
    startTime: Option<Option<int>>,
    endTime: Option<Option<int>>,
    duration: Option<Option<int>>,
    thumbnail: Option<Option<string>>)

  const EmptyPatch := Patch(None, None, None, None, None, None, None, None, None, None, None, None, None, None, None, None)

  function Pick<T>(written: Option<T>, current: T): T {
    if written.Some? then written.value else current
  }

  /** `Object.assign(file, updates)`. */
  function Apply(item: FileItem, patch: Patch): FileItem {
    FileItem(
      Pick(patch.id, item.id),
      Pick(patch.file, item.file),
      Pick(patch.name, item.name),
      Pick(patch.size, item.size),
      Pick(patch.mimeType, item.mimeType),
      Pick(patch.category, item.category),
      Pick(patch.outputFormat, item.outputFormat),
      Pick(patch.status, item.status),
      Pick(patch.progress, item.progress),
      Pick(patch.error, item.error),
      Pick(patch.result, item.result),
      Pick(patch.quality, item.quality),
      Pick(patch.startTime, item.startTime),
      Pick(patch.endTime, item.endTime),
      Pick(patch.duration, item.duration),
      Pick(patch.thumbnail, item.thumbnail))
  }

  /**
    An empty patch changes nothing, applying a patch twice is applying it
    once, and every field the patch does not name keeps its value.
   */
  lemma ApplyLaws(item: FileItem, patch: Patch)
    ensures Apply(item, EmptyPatch) == item
    ensures Apply(Apply(item, patch), patch) == Apply(item, patch)
    ensures patch.id.None? ==> Apply(item, patch).id == item.id
    ensures patch.file.None? ==> Apply(item, patch).file == item.file
    ensures patch.name.None? ==> Apply(item, patch).name == item.name
    ensures patch.size.None? ==> Apply(item, patch).size == item.size
    ensures patch.mimeType.None? ==> Apply(item, patch).mimeType == item.mimeType
    ensures patch.category.None? ==> Apply(item, patch).category == item.category
    ensures patch.outputFormat.None? ==> Apply(item, patch).outputFormat == item.outputFormat
    ensures patch.status.None? ==> Apply(item, patch).status == item.status
    ensures patch.progress.None? ==> Apply(item, patch).progress == item.progress
    ensures patch.error.None? ==> Apply(item, patch).error == item.error
    ensures patch.result.None? ==> Apply(item, patch).result == item.result
    ensures patch.quality.None? ==> Apply(item, patch).quality == item.quality
    ensures patch.startTime.None? ==> Apply(item, patch).startTime == item.startTime
    ensures patch.endTime.None? ==> Apply(item, patch).endTime == item.endTime
    ensures patch.duration.None? ==> Apply(item, patch).duration == item.duration
    ensures patch.thumbnail.None? ==> Apply(item, patch).thumbnail == item.thumbnail
  {
  }

  /** Every field the patch names takes the patch's value, `undefined` included. */
  lemma ApplyWritesNamedFields(item: FileItem, patch: Patch)
    ensures patch.id.Some? ==> Apply(item, patch).id == patch.id.value
    ensures patch.file.Some? ==> Apply(item, patch).file == patch.file.value
    ensures patch.name.Some? ==> Apply(item, patch).name == patch.name.value
    ensures patch.size.Some? ==> Apply(item, patch).size == patch.size.value
    ensures patch.mimeType.Some? ==> Apply(item, patch).mimeType == patch.mimeType.value
    ensures patch.category.Some? ==> Apply(item, patch).category == patch.category.value
    ensures patch.outputFormat.Some? ==> Apply(item, patch).outputFormat == patch.outputFormat.value
    ensures patch.status.Some? ==> Apply(item, patch).status == patch.status.value
    ensures patch.progress.Some? ==> Apply(item, patch).progress == patch.progress.value
    ensures patch.error.Some? ==> Apply(item, patch).error == patch.error.value
    ensures patch.result.Some? ==> Apply(item, patch).result == patch.result.value
    ensures patch.quality.Some? ==> Apply(item, patch).quality == patch.quality.value
    ensures patch.startTime.Some? ==> Apply(item, patch).startTime == patch.startTime.value
    ensures patch.endTime.Some? ==> Apply(item, patch).endTime == patch.endTime.value
    ensures patch.duration.Some? ==> Apply(item, patch).duration == patch.duration.value
    ensures patch.thumbnail.Some? ==> Apply(item, patch).thumbnail == patch.thumbnail.value
  {
  }

  // ---------------------------------------------------------------------
  // Finding and updating by id
  // ---------------------------------------------------------------------

  /** `state.files.find((f) => f.id === id)`: the position of the first item with that id. */
  function FirstIndex(files: seq<FileItem>, id: string): (k: Option<nat>)
    ensures k.Some? ==> k.value < |files| && files[k.value].id == id
    ensures k.Some? ==> forall j :: 0 <= j < k.value ==> files[j].id != id
    ensures k.None? <==> forall j :: 0 <= j < |files| ==> files[j].id != id
  {
    if files == [] then None
    else if files[0].id == id then Some(0)
    else
      match FirstIndex(files[1..], id)
      case None =>
        assert forall j :: 1 <= j < |files| ==> files[j] == files[1..][j - 1];
        None
      case Some(k) =>
        assert forall j :: 1 <= j < k + 1 ==> files[j] == files[1..][j - 1];
        Some(k + 1)
  }

  /**
    Find the first item with the id and change it with `change`; an unknown id
    changes nothing. The list keeps its length and every other item.
   */
  function UpdateFirst(files: seq<FileItem>, id: string, change: FileItem -> FileItem): (r: seq<FileItem>)
    ensures |r| == |files|
    ensures (forall j :: 0 <= j < |files| ==> files[j].id != id) ==> r == files
    ensures forall j :: 0 <= j < |files| && files[j].id == id && (forall i :: 0 <= i < j ==> files[i].id != id) ==>
      r[j] == change(files[j])
    ensures forall j :: 0 <= j < |files| && r[j] != files[j] ==>
      files[j].id == id && forall i :: 0 <= i < j ==> files[i].id != id
  {
    match FirstIndex(files, id)
    case None => files
    case Some(k) => files[k := change(files[k])]
  }

  // ---------------------------------------------------------------------
  // Filters
  // ---------------------------------------------------------------------

  /** `Array.prototype.filter`. */
  function Filter<T(!new)>(s: seq<T>, keep: T -> bool): (r: seq<T>)
    ensures |r| <= |s|
    ensures forall x :: x in r <==> x in s && keep(x)
  {
    if s == [] then []
    else (if keep(s[0]) then [s[0]] else []) + Filter(s[1..], keep)
  }

  /** Filtering a concatenation filters each part in turn: the kept items stay in list order. */
  lemma {:induction false} FilterAppend<T(!new)>(a: seq<T>, b: seq<T>, keep: T -> bool)
    ensures Filter(a + b, keep) == Filter(a, keep) + Filter(b, keep)
  {
    if a == [] {
      assert a + b == b;
    } else {
      assert (a + b)[1..] == a[1..] + b;
      FilterAppend(a[1..], b, keep);
    }
  }

  /** A list whose items all pass comes back whole. */
  lemma {:induction false} FilterKeepsAll<T(!new)>(s: seq<T>, keep: T -> bool)
    requires forall x :: x in s ==> keep(x)
    ensures Filter(s, keep) == s
  {
    if s != [] {
      FilterKeepsAll(s[1..], keep);
    }
  }

  /** Waiting to be converted: pending or failed, with a target format chosen. */
  predicate Awaiting(f: FileItem) {
    (f.status == Pending || f.status == Error) && f.outputFormat != ""
  }

  /** Finished, with its result at hand. */
  predicate Done(f: FileItem) {
    f.status == Completed && f.result.Some?
  }

  predicate HasOtherId(id: string, f: FileItem) {
    f.id != id
  }

  /** `getFilesForConversion`. */
  function ForConversion(files: seq<FileItem>): seq<FileItem> {
    Filter(files, Awaiting)
  }

  /** `getCompletedFiles`. */
  function CompletedFiles(files: seq<FileItem>): seq<FileItem> {
    Filter(files, Done)
  }

  /** `files.filter((f) => f.id !== id)`. */
  function WithoutId(files: seq<FileItem>, id: string): seq<FileItem> {
    Filter(files, (f: FileItem) => HasOtherId(id, f))
  }

  /** No file is both waiting and done. */
  lemma AwaitingAndDoneExclusive(files: seq<FileItem>, f: FileItem)
    ensures !(f in ForConversion(files) && f in CompletedFiles(files))
  {
  }

  /** Files added later are queued after the ones already there, in the order they were added. */
  lemma AddedFilesQueueLast(files: seq<FileItem>, added: seq<FileItem>)
    ensures ForConversion(files + added) == ForConversion(files) + ForConversion(added)
    ensures CompletedFiles(files + added) == CompletedFiles(files) + CompletedFiles(added)
  {
    FilterAppend(files, added, Awaiting);
    FilterAppend(files, added, Done);
  }

  /** Removing an id drops every item with it, keeps the others, and is a no-op for an unknown id. */
  lemma RemoveDropsEveryMatch(files: seq<FileItem>, id: string)
    ensures forall f :: f in WithoutId(files, id) <==> f in files && f.id != id
    ensures (forall j :: 0 <= j < |files| ==> files[j].id != id) ==> WithoutId(files, id) == files
  {
    if forall j :: 0 <= j < |files| ==> files[j].id != id {
      FilterKeepsAll(files, (f: FileItem) => HasOtherId(id, f));
    }
  }

  // ---------------------------------------------------------------------
  // Item changes made by the actions
  // ---------------------------------------------------------------------

  function ApplyPatch(patch: Patch): FileItem -> FileItem {
    (item: FileItem) => Apply(item, patch)
  }

  function WithFormat(format: string): FileItem -> FileItem {
    (item: FileItem) => item.(outputFormat := format)
  }

  function WithQuality(quality: Quality): FileItem -> FileItem {
    (item: FileItem) => item.(quality := quality)
  }

  /** Both trim points are written, an omitted one as `undefined`. */
  function WithTrim(startTime: Option<int>, endTime: Option<int>): FileItem -> FileItem {
    (item: FileItem) => item.(startTime := startTime, endTime := endTime)
  }

  function WithProgress(progress: int): FileItem -> FileItem {
    (item: FileItem) => item.(progress := progress)
  }

  /** The status always changes; the error only when a non-empty message is given. */
  function SetStatus(item: FileItem, status: Status, error: Option<string>): FileItem {
    item.(status := status, error := if error.Some? && error.value != "" then error else item.error)
  }

  function WithStatus(status: Status, error: Option<string>): FileItem -> FileItem {
    (item: FileItem) => SetStatus(item, status, error)
  }

  function WithResult(result: ConversionResult): FileItem -> FileItem {
    (item: FileItem) => item.(result := Some(result), status := Completed, progress := 100)
  }

  /**
    A status change keeps the earlier error unless a non-empty message comes
    with it; so the retry reset to pending keeps the failure message while
    putting the file back in the queue when it has a target format.
   */
  lemma StatusKeepsErrorUnlessGiven(item: FileItem, status: Status, error: Option<string>)
    ensures SetStatus(item, status, error).status == status
    ensures SetStatus(item, status, error).error == item.error <==>
      error.None? || error.value == "" || item.error == error
    ensures Awaiting(SetStatus(item, Pending, None)) <==> item.outputFormat != ""
    ensures SetStatus(item, Pending, None).error == item.error
  {
  }

  /**
    After setConversionResult on a present id, that item is completed at 100
    with the result, counts among the completed files, and is no longer queued.
   */
  lemma ResultCompletesItem(files: seq<FileItem>, id: string, result: ConversionResult)
    requires FirstIndex(files, id).Some?
    ensures var k := FirstIndex(files, id).value;
      var r := UpdateFirst(files, id, WithResult(result));
      && r[k].status == Completed && r[k].progress == 100 && r[k].result == Some(result)
      && r[k] in CompletedFiles(r)
      && r[k] !in ForConversion(r)
  {
    var k := FirstIndex(files, id).value;
    var r := UpdateFirst(files, id, WithResult(result));
    assert r[k] == WithResult(result)(files[k]);
    assert r[k] in r;
  }

  /** The status setter moves the first item with the id into or out of the queue by its new status. */
  lemma StatusDecidesQueue(files: seq<FileItem>, id: string, status: Status, error: Option<string>)
    requires FirstIndex(files, id).Some?
    ensures var k := FirstIndex(files, id).value;
      var r := UpdateFirst(files, id, WithStatus(status, error));
      (r[k] in ForConversion(r) <==> (status == Pending || status == Error) && files[k].outputFormat != "")
  {
    var k := FirstIndex(files, id).value;
    var r := UpdateFirst(files, id, WithStatus(status, error));
    assert r[k] == SetStatus(files[k], status, error);
    assert r[k] in r;
  }

  /** The queue store: `useFileStore`. */
  class Store {
    var files: seq<FileItem>

    constructor()
      ensures files == []
    {
      files := [];
    }

    method AddFiles(items: seq<FileItem>)
      modifies this
      ensures files == old(files) + items
    {
      files := files + items;
    }

    method RemoveFile(id: string)
      modifies this
      ensures files == WithoutId(old(files), id)
    {
      files := WithoutId(files, id);
    }

    method ClearFiles()
      modifies this
      ensures files == []
    {
      files := [];
    }

    method UpdateFile(id: string, updates: Patch)
      modifies this
      ensures files == UpdateFirst(old(files), id, ApplyPatch(updates))
    {
      files := UpdateFirst(files, id, ApplyPatch(updates));
    }

    method SetOutputFormat(id: string, format: string)
      modifies this
      ensures files == UpdateFirst(old(files), id, WithFormat(format))
    {
      files := UpdateFirst(files, id, WithFormat(format));
    }

    method SetQuality(id: string, quality: Quality)
      modifies this
      ensures files == UpdateFirst(old(files), id, WithQuality(quality))
    {
      files := UpdateFirst(files, id, WithQuality(quality));
    }

    method SetTrimPoints(id: string, startTime: Option<int>, endTime: Option<int>)
      modifies this
      ensures files == UpdateFirst(old(files), id, WithTrim(startTime, endTime))
    {
      files := UpdateFirst(files, id, WithTrim(startTime, endTime));
    }

    method SetConversionStatus(id: string, status: Status, error: Option<string>)
      modifies this
      ensures files == UpdateFirst(old(files), id, WithStatus(status, error))
    {
      files := UpdateFirst(files, id, WithStatus(status, error));
    }

    method SetConversionProgress(id: string, progress: int)
      modifies this
      ensures files == UpdateFirst(old(files), id, WithProgress(progress))
    {
      files := UpdateFirst(files, id, WithProgress(progress));
    }

    method SetConversionResult(id: string, result: ConversionResult)
      modifies this
      ensures files == UpdateFirst(old(files), id, WithResult(result))
    {
      files := UpdateFirst(files, id, WithResult(result));
    }

    /** The waiting files, in list order. */
    method GetFilesForConversion() returns (r: seq<FileItem>)
      ensures forall f :: f in r <==> f in files && Awaiting(f)
      ensures r == ForConversion(files)
    {
      r := ForConversion(files);
    }

    /** The finished files with a result, in list order. */
    method GetCompletedFiles() returns (r: seq<FileItem>)
      ensures forall f :: f in r <==> f in files && Done(f)
      ensures r == CompletedFiles(files)
    {
      r := CompletedFiles(files);
    }
  }

  // ---------------------------------------------------------------------
  // formatDuration
  // ---------------------------------------------------------------------

  function DigitChar(d: nat): char
    requires d < 10
  {
    ('0' as int + d) as char
  }

  predicate IsDigits(s: string) {
    forall i :: 0 <= i < |s| ==> '0' <= s[i] <= '9'
  }

  /** `n.toString()` for a natural number. */
  function NatToString(n: nat): (r: string)
    ensures |r| >= 1 && IsDigits(r)
    ensures n < 10 <==> |r| == 1
    decreases n
  {
    if n < 10 then [DigitChar(n)] else NatToString(n / 10) + [DigitChar(n % 10)]
  }

  /** `n.toString()` for an integer. */
  function IntToString(n: int): string {
    if n < 0 then "-" + NatToString(-n) else NatToString(n)
  }

  /** `s.padStart(width, fill)`. */
  function PadStart(s: string, width: nat, fill: char): (r: string)
    ensures |r| == if |s| >= width then |s| else width
  {
    if |s| >= width then s else seq(width - |s|, _ => fill) + s
  }

  /** JavaScript's `%`: the remainder has the sign of the dividend. */
  function JsRemainder(a: int, b: int): int
    requires b > 0
  {
    if a >= 0 || a % b == 0 then a % b else a % b - b
  }

  /** `formatDuration(seconds)` for a whole number of seconds. */
  function FormatDuration(seconds: int): string {
    var mins := seconds / 60;
    var secs := JsRemainder(seconds, 60);
    IntToString(mins) + ":" + PadStart(IntToString(secs), 2, '0')
  }

  /** The number a string of decimal digits denotes. */
  function DigitsValue(s: string): nat
    requires IsDigits(s)
    decreases |s|
  {
    if s == [] then 0 else DigitsValue(s[..|s| - 1]) * 10 + (s[|s| - 1] as int - '0' as int)
  }

  lemma {:induction false} NatToStringValue(n: nat)
    ensures DigitsValue(NatToString(n)) == n
    decreases n
  {
    if n >= 10 {
      var s := NatToString(n);
      assert s[..|s| - 1] == NatToString(n / 10);
      NatToStringValue(n / 10);
    }
  }

  /** "m:ss" read back: whole minutes, a colon, exactly two digits below 60. */
  function ParseDuration(text: string): Option<nat> {
    var k := LastIndexOf(text, ':');
    if k < 1 then None
    else
      var m, s := text[..k], text[k + 1..];
      if IsDigits(m) && IsDigits(s) && |s| == 2 && DigitsValue(s) < 60
      then Some(DigitsValue(m) * 60 + DigitsValue(s))
      else None
  }

  lemma LastColon(a: string, b: string)
    requires ':' !in b
    ensures LastIndexOf(a + ":" + b, ':') == |a|
  {
    var t := a + ":" + b;
    var k := LastIndexOf(t, ':');
    assert t[|a|] == ':';
  }

  /** The seconds field is the remainder written with two digits. */
  lemma {:induction false} PaddedSeconds(r: nat)
    requires r < 60
    ensures var s := PadStart(IntToString(r), 2, '0');
      |s| == 2 && IsDigits(s) && DigitsValue(s) == r
  {
    var s := PadStart(IntToString(r), 2, '0');
    if r < 10 {
      assert IntToString(r) == [DigitChar(r)];
      assert seq(1, _ => '0') == ['0'];
      assert s == ['0', DigitChar(r)];
      assert DigitChar(r) as int == '0' as int + r;
      assert DigitsValue(s[..1]) == 0 by {
        assert s[..1] == ['0'];
        assert s[..1][..0] == [];
      }
    } else {
      NatToStringValue(r);
    }
  }

  /**
    For a whole, non-negative number of seconds the formatted text reads back
    as that number: minutes, then a two-digit remainder below 60.
   */
  lemma FormatDurationRoundTrip(seconds: nat)
    ensures ParseDuration(FormatDuration(seconds)) == Some(seconds)
  {
    var mins, secs := seconds / 60, JsRemainder(seconds, 60);
    assert secs == seconds % 60;
    var a, b := IntToString(mins), PadStart(IntToString(secs), 2, '0');
    PaddedSeconds(secs);
    NatToStringValue(mins);
    assert ':' !in b;
    LastColon(a, b);
    var text := a + ":" + b;
    assert text == FormatDuration(seconds);
    assert text[..|a|] == a;
    assert text[|a| + 1..] == b;
  }

  /**
    JavaScript's `%` truncates: the remainder lies strictly between -b and b,
    is never of the opposite sign to the dividend, and is congruent to it
    modulo b.
   */
  lemma JsRemainderTruncates(a: int, b: int)
    requires b > 0
    ensures var r := JsRemainder(a, b);
      && -b < r < b
      && (a >= 0 ==> r >= 0)
      && (a <= 0 ==> r <= 0)
      && r % b == a % b
  {
    var m, r := a % b, JsRemainder(a, b);
    assert 0 <= m < b;
    if a < 0 && m != 0 {
      assert r == m - b;
      RemainderShift(r, b);
    } else if a <= 0 {
      assert a == b * (a / b) + m;
      assert m == 0;
    }
  }

  lemma RemainderShift(r: int, b: int)
    requires b > 0 && -b < r < 0
    ensures r % b == r + b
  {
    assert r == b * (-1) + (r + b);
  }

  /**
    Below zero `Math.floor` rounds the minutes down while `%` truncates the
    seconds toward zero: both fields carry a minus sign (the seconds field
    unless the input is a whole number of minutes), and the text never reads
    back as a duration.
   */
  lemma NegativeDurationFields(seconds: int)
    requires seconds < 0
    ensures var text := FormatDuration(seconds);
      var k := LastIndexOf(text, ':');
      && 1 <= k
      && text[..k] == "-" + NatToString(-(seconds / 60))
      && text[k + 1..] == (if seconds % 60 == 0 then "00" else "-" + NatToString(60 - seconds % 60))
    ensures ParseDuration(FormatDuration(seconds)).None?
  {
    var mins, secs := seconds / 60, JsRemainder(seconds, 60);
    var a := IntToString(mins);
    assert a == "-" + NatToString(-mins);
    var b := PadStart(IntToString(secs), 2, '0');
    if seconds % 60 == 0 {
      assert secs == 0;
      assert IntToString(secs) == "0";
      assert seq(1, _ => '0') == ['0'];
      assert b == "00";
    } else {
      assert secs == seconds % 60 - 60;
      assert IntToString(secs) == "-" + NatToString(60 - seconds % 60);
      assert b == "-" + NatToString(60 - seconds % 60);
    }
    assert ':' !in b;
    LastColon(a, b);
    var text := a + ":" + b;
    assert text == FormatDuration(seconds);
    assert text[..|a|] == a;
    assert text[|a| + 1..] == b;
    assert !IsDigits(a) by { assert a[0] == '-'; }
  }

  /** Sample values: a negative input, a minute and more, and a single-digit second. */
  lemma FormatDurationNegative()
    ensures FormatDuration(-5) == "-1:-5"
    ensures FormatDuration(75) == "1:15"
    ensures FormatDuration(5) == "0:05"
  {
    assert JsRemainder(-5, 60) == -5;
    assert NatToString(5) == "5";
    assert NatToString(1) == "1";
    assert NatToString(15) == "15" by { assert NatToString(1) == "1"; }
    assert NatToString(0) == "0";
  }
}
