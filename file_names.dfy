/**
  The string rules that both the server handler and the client registry apply
  to file names: `name.split(".").pop()?.toLowerCase() || ""` for the
  extension, and `name.replace(/\.[^/.]+$/, rep)` for the output name.
 */
module FileNames {
  import opened Common

  // ---------------------------------------------------------------------
  // Case mapping (ASCII letters only)
  // ---------------------------------------------------------------------

  function LowerChar(c: char): char {
    if 'A' <= c <= 'Z' then (c as int + 32) as char else c
  }

  function UpperChar(c: char): char {
    if 'a' <= c <= 'z' then (c as int - 32) as char else c
  }

  /** `s.toLowerCase()` restricted to ASCII letters. */
  function Lower(s: string): (r: string)
    ensures |r| == |s|
    ensures forall i :: 0 <= i < |s| ==> r[i] == LowerChar(s[i])
  {
    seq(|s|, i requires 0 <= i < |s| => LowerChar(s[i]))
  }

  /** `s.toUpperCase()` restricted to ASCII letters. */
  function Upper(s: string): (r: string)
    ensures |r| == |s|
    ensures forall i :: 0 <= i < |s| ==> r[i] == UpperChar(s[i])
  {
    seq(|s|, i requires 0 <= i < |s| => UpperChar(s[i]))
  }

  /** No ASCII capital letter occurs in `s`. */
  predicate IsLowerCase(s: string) {
    forall i :: 0 <= i < |s| ==> !('A' <= s[i] <= 'Z')
  }

  /** Lowering removes every capital, fixes lower-case strings, and is idempotent. */
  lemma LowerIsLowerCase(s: string)
    ensures IsLowerCase(Lower(s))
    ensures IsLowerCase(s) ==> Lower(s) == s
    ensures Lower(Lower(s)) == Lower(s)
  {
    var r := Lower(s);
    forall i | 0 <= i < |s|
      ensures !('A' <= r[i] <= 'Z') && LowerChar(r[i]) == r[i]
    {
      assert r[i] == LowerChar(s[i]);
    }
    assert Lower(r) == r;
  }

  // ---------------------------------------------------------------------
  // String.prototype.split with a one-character separator
  // ---------------------------------------------------------------------

  /** `s.split(sep)`: the maximal separator-free pieces between separators. */
  function Split(s: string, sep: char): (parts: seq<string>)
    ensures |parts| >= 1
    decreases |s|
  {
    if |s| == 0 then [""]
    else
      var init := Split(s[..|s| - 1], sep);
      var c := s[|s| - 1];
      if c == sep then init + [""]
      else init[..|init| - 1] + [init[|init| - 1] + [c]]
  }

  /** `parts.join(sep)`: the inverse of Split. */
  function Join(parts: seq<string>, sep: char): string
  {
    if |parts| == 0 then ""
    else if |parts| == 1 then parts[0]
    else Join(parts[..|parts| - 1], sep) + [sep] + parts[|parts| - 1]
  }

  /** One step of Split: appending a character either opens a new piece or extends the last one. */
  lemma SplitSnoc(s: string, c: char, sep: char)
    ensures Split(s + [c], sep) ==
      var init := Split(s, sep);
      if c == sep then init + [""] else init[..|init| - 1] + [init[|init| - 1] + [c]]
  {
    assert (s + [c])[..|s + [c]| - 1] == s;
  }

  /** Splitting loses nothing: joining the pieces gives the string back. */
  lemma {:induction false} JoinSplit(s: string, sep: char)
    ensures Join(Split(s, sep), sep) == s
    decreases |s|
  {
    if |s| > 0 {
      var s', c := s[..|s| - 1], s[|s| - 1];
      assert s == s' + [c];
      JoinSplit(s', sep);
      SplitSnoc(s', c, sep);
      var init := Split(s', sep);
      var n := |init|;
      if c == sep {
        JoinSnoc(init, "", sep);
      } else if n > 1 {
        var front := init[..n - 1];
        assert init == front + [init[n - 1]];
        JoinSnoc(front, init[n - 1], sep);
        JoinSnoc(front, init[n - 1] + [c], sep);
      }
    }
  }

  /** No piece of a split holds the separator. */
  lemma {:induction false} SplitPiecesAvoidSeparator(s: string, sep: char)
    ensures forall p :: p in Split(s, sep) ==> sep !in p
    decreases |s|
  {
    if |s| > 0 {
      var s', c := s[..|s| - 1], s[|s| - 1];
      assert s == s' + [c];
      SplitPiecesAvoidSeparator(s', sep);
      SplitSnoc(s', c, sep);
      var init := Split(s', sep);
      var n := |init|;
      if c != sep {
        assert init[n - 1] in init;
        forall p | p in init[..n - 1] ensures p in init { }
      }
    }
  }

  /** Join of a non-empty list followed by one more piece. */
  lemma JoinSnoc(parts: seq<string>, p: string, sep: char)
    requires |parts| >= 1
    ensures Join(parts + [p], sep) == Join(parts, sep) + [sep] + p
  {
    assert (parts + [p])[..|parts|] == parts;
  }

  /** The number of pieces is one more than the number of separators. */
  function Count(s: string, c: char): (n: nat)
    ensures n <= |s|
    decreases |s|
  {
    if |s| == 0 then 0 else Count(s[..|s| - 1], c) + (if s[|s| - 1] == c then 1 else 0)
  }

  lemma {:induction false} SplitLength(s: string, sep: char)
    ensures |Split(s, sep)| == Count(s, sep) + 1
    decreases |s|
  {
    if |s| > 0 {
      SplitLength(s[..|s| - 1], sep);
    }
  }

  /** Index of the last occurrence of `c` in `s`, or -1 when there is none. */
  function LastIndexOf(s: string, c: char): (k: int)
    ensures -1 <= k < |s|
    ensures k >= 0 ==> s[k] == c
    ensures forall j :: k < j < |s| ==> s[j] != c
    decreases |s|
  {
    if |s| == 0 then -1
    else if s[|s| - 1] == c then |s| - 1
    else LastIndexOf(s[..|s| - 1], c)
  }

  /** The text after the last separator (all of `s` when there is none). */
  function LastSegment(s: string, sep: char): string {
    s[LastIndexOf(s, sep) + 1..]
  }

  /** The last piece of a split, `s.split(sep).pop()`. */
  function LastPiece(s: string, sep: char): string {
    var parts := Split(s, sep);
    parts[|parts| - 1]
  }

  /** LastSegment is `s.split(sep).pop()`: the last piece of the split. */
  lemma {:induction false} LastSegmentIsLastPiece(s: string, sep: char)
    ensures LastSegment(s, sep) == LastPiece(s, sep)
    decreases |s|
  {
    if |s| == 0 {
      assert s == "";
      LastPieceOfEmpty(sep);
    } else {
      var s', c := s[..|s| - 1], s[|s| - 1];
      LastSegmentIsLastPiece(s', sep);
      LastSegmentStep(s', c, sep);
      assert s' + [c] == s;
    }
  }

  lemma LastPieceOfEmpty(sep: char)
    ensures LastSegment("", sep) == LastPiece("", sep) == ""
  {
  }

  lemma LastSegmentStep(s: string, c: char, sep: char)
    requires LastSegment(s, sep) == LastPiece(s, sep)
    ensures LastSegment(s + [c], sep) == LastPiece(s + [c], sep)
  {
    LastPieceSnoc(s, c, sep);
    LastSegmentSnoc(s, c, sep);
  }

  lemma LastSegmentSnoc(s: string, c: char, sep: char)
    ensures LastSegment(s + [c], sep) == if c == sep then "" else LastSegment(s, sep) + [c]
  {
    LastIndexOfSnoc(s, c, sep);
    if c != sep {
      var k := LastIndexOf(s, sep);
      assert (s + [c])[k + 1..] == s[k + 1..] + [c];
    }
  }

  lemma LastPieceSnoc(s: string, c: char, sep: char)
    ensures LastPiece(s + [c], sep) == if c == sep then "" else LastPiece(s, sep) + [c]
  {
    SplitSnoc(s, c, sep);
  }

  lemma LastIndexOfSnoc(s: string, c: char, sep: char)
    ensures LastIndexOf(s + [c], sep) == if c == sep then |s| else LastIndexOf(s, sep)
  {
    assert (s + [c])[..|s|] == s;
  }

  // ---------------------------------------------------------------------
  // The extension rule
  // ---------------------------------------------------------------------

  /** `name.split(".").pop()?.toLowerCase() || ""`. */
  function ExtensionOf(name: string): string {
    Lower(LastSegment(name, '.'))
  }

  /** A name without a dot yields the whole name, lower-cased. */
  lemma ExtensionWithoutDot(name: string)
    requires '.' !in name
    ensures ExtensionOf(name) == Lower(name)
  {
    var k := LastIndexOf(name, '.');
    if k >= 0 {
      assert false;
    }
    assert name[k + 1..] == name;
  }

  /** A name ending in a dot yields the empty extension. */
  lemma ExtensionAfterTrailingDot(name: string)
    requires |name| > 0 && name[|name| - 1] == '.'
    ensures ExtensionOf(name) == ""
  {
  }

  /** The extension is always a lower-case string without dots. */
  lemma ExtensionIsPlain(name: string)
    ensures '.' !in ExtensionOf(name)
    ensures IsLowerCase(ExtensionOf(name))
  {
    var k := LastIndexOf(name, '.');
    var seg := name[k + 1..];
    assert '.' !in seg by {
      forall i | 0 <= i < |seg| ensures seg[i] != '.' {
        assert seg[i] == name[k + 1 + i];
      }
    }
    LowerKeepsDots(seg);
    LowerIsLowerCase(seg);
  }

  /** Lowering neither creates nor removes dots. */
  lemma LowerKeepsDots(s: string)
    ensures '.' in Lower(s) <==> '.' in s
  {
    var r := Lower(s);
    if '.' in r {
      var i :| 0 <= i < |r| && r[i] == '.';
      assert s[i] == '.';
    }
    if '.' in s {
      var i :| 0 <= i < |s| && s[i] == '.';
      assert r[i] == '.';
    }
  }

  // ---------------------------------------------------------------------
  // The suffix regex /\.[^/.]+$/ and String.prototype.replace
  // ---------------------------------------------------------------------

  /** The regex `/\.[^/.]+$/` matches `s` starting at index `i`. */
  predicate SuffixMatchAt(s: string, i: int) {
    && 0 <= i < |s| - 1
    && s[i] == '.'
    && forall j :: i < j < |s| ==> s[j] != '/' && s[j] != '.'
  }

  /** Where the suffix match starts, if the regex matches at all. */
  function SuffixStart(s: string): Option<nat> {
    var k := LastIndexOf(s, '.');
    if 0 <= k < |s| - 1 && '/' !in s[k + 1..] then Some(k) else None
  }

  /**
    SuffixStart is the regex's match: the regex matches at most at one index,
    and SuffixStart finds it exactly when it exists.
   */
  lemma SuffixStartIsTheMatch(s: string)
    ensures SuffixStart(s).Some? ==> SuffixMatchAt(s, SuffixStart(s).value)
    ensures forall i :: SuffixMatchAt(s, i) ==> SuffixStart(s) == Some(i)
  {
    var k := LastIndexOf(s, '.');
    if SuffixStart(s).Some? {
      forall j | k < j < |s| ensures s[j] != '/' {
        assert s[j] in s[k + 1..];
      }
    }
    forall i | SuffixMatchAt(s, i) ensures SuffixStart(s) == Some(i) {
      assert k == i;
      var tail := s[k + 1..];
      forall m | 0 <= m < |tail| ensures tail[m] != '/' {
        assert tail[m] == s[k + 1 + m];
      }
    }
  }

  /**
    The replacement string as `replace` reads it for this regex: `$$` is one
    "$", `$&` the matched text, `` $` `` the text before the match and `$'`
    the text after it, which is empty because the match ends the string. The
    regex has no groups, so every other `$` is literal.
   */
  function ExpandReplacement(rep: string, before: string, matched: string): string
    decreases |rep|
  {
    if rep == [] then []
    else if |rep| >= 2 && rep[0] == '$' && rep[1] == '$' then "$" + ExpandReplacement(rep[2..], before, matched)
    else if |rep| >= 2 && rep[0] == '$' && rep[1] == '&' then matched + ExpandReplacement(rep[2..], before, matched)
    else if |rep| >= 2 && rep[0] == '$' && rep[1] == '`' then before + ExpandReplacement(rep[2..], before, matched)
    else if |rep| >= 2 && rep[0] == '$' && rep[1] == '\'' then ExpandReplacement(rep[2..], before, matched)
    else [rep[0]] + ExpandReplacement(rep[1..], before, matched)
  }

  /** A replacement without `$` is inserted as it is. */
  lemma {:induction false} ExpandLiteral(rep: string, before: string, matched: string)
    requires '$' !in rep
    ensures ExpandReplacement(rep, before, matched) == rep
    decreases |rep|
  {
    if rep != [] {
      assert '$' !in rep[1..];
      ExpandLiteral(rep[1..], before, matched);
    }
  }

  /** `s.replace(/\.[^/.]+$/, rep)`. */
  function ReplaceSuffix(s: string, rep: string): string {
    match SuffixStart(s)
    case None => s
    case Some(k) => s[..k] + ExpandReplacement(rep, s[..k], s[k..])
  }

  /** The name without its suffix: `s.replace(/\.[^/.]+$/, "")`. */
  function StripSuffix(s: string): string {
    ReplaceSuffix(s, "")
  }

  /**
    Replacing keeps everything before the matched dot and puts the expanded
    `rep` in place of the match, which is `rep` itself when it has no `$`; a
    name the regex does not match is returned unchanged.
   */
  lemma ReplaceSuffixShape(s: string, rep: string)
    ensures SuffixStart(s).Some? ==>
      var k := SuffixStart(s).value;
      && ReplaceSuffix(s, rep) == s[..k] + ExpandReplacement(rep, s[..k], s[k..])
      && ('$' !in rep ==> ReplaceSuffix(s, rep) == s[..k] + rep)
      && s == s[..k] + "." + s[k + 1..]
    ensures SuffixStart(s).None? ==> ReplaceSuffix(s, rep) == s
    ensures SuffixStart(s).None? <==> forall i :: !SuffixMatchAt(s, i)
  {
    SuffixStartIsTheMatch(s);
    if SuffixStart(s).Some? {
      var k := SuffixStart(s).value;
      if '$' !in rep {
        ExpandLiteral(rep, s[..k], s[k..]);
      }
      assert s == s[..k] + "." + s[k + 1..];
    }
  }

  /**
    `$&` in the replacement brings the matched suffix back: "a.mp4" replaced
    with ".x$&" becomes "a.x.mp4", not "a.x$&".
   */
  lemma DollarPatternExpands()
    ensures ReplaceSuffix("a.mp4", ".x$&") == "a.x.mp4"
    ensures ReplaceSuffix("a.mp4", ".x$$") == "a.x$"
  {
    var s := "a.mp4";
    assert SuffixMatchAt(s, 1);
    SuffixStartIsTheMatch(s);
    assert s[..1] == "a" && s[1..] == ".mp4";
    var r := ".x$&";
    assert r[2..] == "$&" && r[1..] == "x$&";
    assert ExpandReplacement("$&"[2..], "a", ".mp4") == "";
    var q := ".x$$";
    assert q[2..] == "$$" && q[1..] == "x$$";
    assert ExpandReplacement("$$"[2..], "a", ".mp4") == "";
  }

  /** The text the regex replaces is "." followed by the name's extension, up to case. */
  lemma SuffixIsExtension(s: string)
    requires SuffixStart(s).Some?
    ensures Lower(s[SuffixStart(s).value + 1..]) == ExtensionOf(s)
    ensures ExtensionOf(s) != ""
  {
  }

  /**
    A non-empty replacement extension without '.' or '/' is itself matched by
    the regex; without '$' it is also inserted as it is.
   */
  predicate PlainExtension(e: string) {
    |e| > 0 && '.' !in e && '/' !in e && '$' !in e
  }

  /** Renaming twice to the same plain extension gives the same name as renaming once. */
  lemma ReplaceSuffixIdempotent(s: string, e: string)
    requires PlainExtension(e)
    ensures ReplaceSuffix(ReplaceSuffix(s, "." + e), "." + e) == ReplaceSuffix(s, "." + e)
  {
    var t := ReplaceSuffix(s, "." + e);
    if SuffixStart(s).Some? {
      var k := SuffixStart(s).value;
      ReplaceSuffixShape(s, "." + e);
      assert t == s[..k] + "." + e;
      assert SuffixMatchAt(t, k) by {
        forall j | k < j < |t| ensures t[j] != '/' && t[j] != '.' {
          assert t[j] == e[j - k - 1];
        }
      }
      SuffixStartIsTheMatch(t);
      ReplaceSuffixShape(t, "." + e);
      assert t[..k] == s[..k];
    }
  }
}
