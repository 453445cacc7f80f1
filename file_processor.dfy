/**
 * The server's file-type check and extension dispatch (Backend/src/utils/fileProcessor.ts).
 * Node's POSIX `path.extname` is modelled exactly; the PDF and Word extractors are
 * opaque functions passed in by the caller.
 */
module FileProcessor {
  import opened Common

  /** Index just past the last character that is not '/', that is, the end of the path once trailing slashes are dropped. */
  function PathEnd(p: string): (e: nat)
    ensures e <= |p|
    ensures e > 0 ==> p[e - 1] != '/'
    ensures forall i :: e <= i < |p| ==> p[i] == '/'
    decreases |p|
  {
    if p == [] || p[|p| - 1] != '/' then |p| else PathEnd(p[..|p| - 1])
  }

  /** Index just past the last '/' before `e`, or 0: the start of the last path segment. */
  function SegmentStart(p: string, e: nat): (st: nat)
    requires e <= |p|
    ensures st <= e
    ensures st > 0 ==> p[st - 1] == '/'
    ensures forall i :: st <= i < e ==> p[i] != '/'
    decreases e
  {
    if e == 0 || p[e - 1] == '/' then e else SegmentStart(p, e - 1)
  }

  /** The last path segment, trailing slashes ignored (`path.basename`). */
  function BaseName(p: string): (seg: string)
    ensures '/' !in seg
  {
    var e := PathEnd(p);
    var st := SegmentStart(p, e);
    assert forall i :: 0 <= i < e - st ==> p[st..e][i] == p[st + i];
    p[st..e]
  }

  /** Index of the last occurrence of `c` in `s`. */
  function LastIndexOf(s: string, c: char): (k: Option<nat>)
    ensures k.None? ==> c !in s
    ensures k.Some? ==> k.value < |s| && s[k.value] == c && forall i :: k.value < i < |s| ==> s[i] != c
  {
    if s == [] then None
    else if s[|s| - 1] == c then Some(|s| - 1)
    else LastIndexOf(s[..|s| - 1], c)
  }

  /**
   * The extension of one path segment: from its last '.' to its end, or "" when it has
   * no '.', when that '.' is its first character (a dotfile such as ".pdf"), or when
   * the segment is "..".
   */
  function SegmentExtension(seg: string): (ext: string)
    ensures ext == [] || (ext[0] == '.' && '.' !in ext[1..])
    ensures ext != [] ==> |ext| < |seg| && ext == seg[|seg| - |ext|..]
    ensures '.' !in seg ==> ext == []
  {
    match LastIndexOf(seg, '.')
    case None => ""
    case Some(k) =>
      if k == 0 || seg == ".." then "" else
        assert forall i :: 0 <= i < |seg| - k - 1 ==> seg[k..][1..][i] == seg[k + 1 + i];
        seg[k..]
  }

  /** Node's POSIX `path.extname`: the extension of the last segment. */
  function ExtName(p: string): (ext: string)
    ensures ext == [] || (ext[0] == '.' && '.' !in ext[1..])
    ensures ext != [] ==> |ext| < |BaseName(p)| && ext == BaseName(p)[|BaseName(p)| - |ext|..]
  {
    SegmentExtension(BaseName(p))
  }

  /** ASCII case folding of one character. */
  function LowerChar(c: char): char
  {
    if 'A' <= c <= 'Z' then (c as int + 32) as char else c
  }

  /** `String.prototype.toLowerCase`, restricted to ASCII letters. */
  function ToLower(s: string): (r: string)
    ensures |r| == |s|
    ensures forall i :: 0 <= i < |s| ==> r[i] == LowerChar(s[i])
  {
    seq(|s|, i requires 0 <= i < |s| => LowerChar(s[i]))
  }

  /** The lower-cased extension the server switches on. */
  function Extension(p: string): string
  {
    ToLower(ExtName(p))
  }

  const AllowedExtensions: seq<string> := [".pdf", ".doc", ".docx"]

  /** `validateFileType`: the lower-cased extension is one of the allowed ones. */
  function ValidateFileType(fileName: string): (ok: bool)
    ensures ok <==> Extension(fileName) == ".pdf" || Extension(fileName) == ".doc" || Extension(fileName) == ".docx"
  {
    Extension(fileName) in AllowedExtensions
  }

  /**
   * `extractTextFromFile`: dispatch on the extension; every failure, the unsupported
   * type included, is rethrown as "Failed to extract text from <ext> file".
   */
  function ExtractTextFromFile(path: string, fromPdf: string -> Result<string>, fromWord: string -> Result<string>): (r: Result<string>)
    ensures r.Err? ==> r.message == "Failed to extract text from " + Extension(path) + " file"
    ensures Extension(path) == ".pdf" && r.Ok? ==> r == fromPdf(path)
    ensures Extension(path) == ".pdf" ==> (r.Ok? <==> fromPdf(path).Ok?)
    ensures Extension(path) == ".doc" || Extension(path) == ".docx" ==> (r.Ok? <==> fromWord(path).Ok?)
    ensures (Extension(path) == ".doc" || Extension(path) == ".docx") && r.Ok? ==> r == fromWord(path)
    ensures !ValidateFileType(path) ==> r.Err?
  {
    var ext := Extension(path);
    var inner :=
      match ext
      case ".pdf" => fromPdf(path)
      case ".doc" => fromWord(path)
      case ".docx" => fromWord(path)
      case _ => Err("Unsupported file type: " + ext);
    if inner.Ok? then inner else Err("Failed to extract text from " + ext + " file")
  }

  /** With extractors that never fail, extraction succeeds exactly for the names `validateFileType` accepts. */
  lemma ValidationMatchesDispatch(path: string)
    ensures ValidateFileType(path) <==> ExtractTextFromFile(path, s => Ok(s), s => Ok(s)).Ok?
  {
  }

  lemma {:induction false} PathEndOfLower(p: string)
    ensures PathEnd(ToLower(p)) == PathEnd(p)
    decreases |p|
  {
    if p != [] && p[|p| - 1] == '/' {
      assert ToLower(p)[..|p| - 1] == ToLower(p[..|p| - 1]);
      PathEndOfLower(p[..|p| - 1]);
    }
  }

  lemma {:induction false} SegmentStartOfLower(p: string, e: nat)
    requires e <= |p|
    ensures SegmentStart(ToLower(p), e) == SegmentStart(p, e)
    decreases e
  {
    if e > 0 && p[e - 1] != '/' {
      SegmentStartOfLower(p, e - 1);
    }
  }

  lemma BaseNameOfLower(p: string)
    ensures BaseName(ToLower(p)) == ToLower(BaseName(p))
  {
    PathEndOfLower(p);
    SegmentStartOfLower(p, PathEnd(p));
  }

  lemma {:induction false} LastIndexOfLower(s: string, c: char)
    requires c == LowerChar(c) && forall d :: LowerChar(d) == c ==> d == c
    ensures LastIndexOf(ToLower(s), c) == LastIndexOf(s, c)
  {
    if s != [] && s[|s| - 1] != c {
      assert ToLower(s)[..|s| - 1] == ToLower(s[..|s| - 1]);
      LastIndexOfLower(s[..|s| - 1], c);
    }
  }

  lemma SegmentExtensionOfLower(seg: string)
    ensures SegmentExtension(ToLower(seg)) == ToLower(SegmentExtension(seg))
  {
    LastIndexOfLower(seg, '.');
    var lseg := ToLower(seg);
    match LastIndexOf(seg, '.')
    case None =>
    case Some(k) =>
      assert lseg == ".." <==> seg == ".." by {
        if lseg == ".." { assert LowerChar(seg[0]) == '.' && LowerChar(seg[1]) == '.'; }
      }
      if k != 0 && seg != ".." {
        assert lseg[k..] == ToLower(seg[k..]);
      }
  }

  /** Lower-casing a name lower-cases its extension: the extension found does not depend on letter case. */
  lemma ExtNameOfLower(p: string)
    ensures ExtName(ToLower(p)) == ToLower(ExtName(p))
  {
    BaseNameOfLower(p);
    SegmentExtensionOfLower(BaseName(p));
  }

  lemma LowerIdempotent(s: string)
    ensures ToLower(ToLower(s)) == ToLower(s)
  {
    var t := ToLower(s);
    assert forall i :: 0 <= i < |s| ==> ToLower(t)[i] == t[i];
  }

  /** Case is ignored: a name and its lower-cased form are accepted alike. */
  lemma ValidationIgnoresCase(fileName: string)
    ensures ValidateFileType(ToLower(fileName)) == ValidateFileType(fileName)
  {
    ExtNameOfLower(fileName);
    LowerIdempotent(ExtName(fileName));
    assert Extension(ToLower(fileName)) == Extension(fileName);
  }

  lemma {:induction false} SegmentStartAfterStem(stem: string, tail: string)
    requires '/' !in tail
    ensures SegmentStart(stem + tail, |stem + tail|) == SegmentStart(stem, |stem|)
    decreases |tail|
  {
    if tail == [] {
      assert stem + tail == stem;
    } else {
      var p := stem + tail;
      assert p[|p| - 1] == tail[|tail| - 1];
      SegmentStartPrefix(p, |p| - 1);
      assert p[..|p| - 1] == stem + tail[..|tail| - 1];
      SegmentStartAfterStem(stem, tail[..|tail| - 1]);
    }
  }

  /** The segment search below `e` only looks at the first `e` characters. */
  lemma {:induction false} SegmentStartPrefix(p: string, e: nat)
    requires e <= |p|
    ensures SegmentStart(p, e) == SegmentStart(p[..e], e)
    decreases e
  {
    if e > 0 && p[e - 1] != '/' {
      SegmentStartPrefix(p, e - 1);
      SegmentStartPrefix(p[..e], e - 1);
      assert p[..e][..e - 1] == p[..e - 1];
    }
  }

  lemma {:induction false} LastIndexAfterStem(b: string, e: string)
    requires '.' !in e
    ensures LastIndexOf(b + ['.'] + e, '.') == Some(|b|)
    decreases |e|
  {
    var s := b + ['.'] + e;
    if e != [] {
      assert s[|s| - 1] == e[|e| - 1];
      assert s[..|s| - 1] == b + ['.'] + e[..|e| - 1];
      LastIndexAfterStem(b, e[..|e| - 1]);
    }
  }

  /** Moving the segment search's end over characters that are not '/' does not move the segment start. */
  lemma {:induction false} SegmentStartSkips(p: string, k: nat, e: nat)
    requires k <= e <= |p|
    requires forall i :: k <= i < e ==> p[i] != '/'
    ensures SegmentStart(p, e) == SegmentStart(p, k)
    decreases e
  {
    if k < e {
      SegmentStartSkips(p, k, e - 1);
    }
  }

  /** A name that does not end in '/' and has no '/' from `k` on has its last segment start at or before `k`. */
  lemma BaseNameFrom(p: string, k: nat)
    requires k <= |p| && p != [] && p[|p| - 1] != '/'
    requires forall i :: k <= i < |p| ==> p[i] != '/'
    ensures SegmentStart(p, k) <= k && BaseName(p) == p[SegmentStart(p, k)..]
  {
    assert PathEnd(p) == |p|;
    SegmentStartSkips(p, k, |p|);
  }

  lemma SegmentExtensionAfterStem(b: string, e: string)
    requires b != [] && e != [] && '.' !in e
    ensures SegmentExtension(b + ['.'] + e) == ['.'] + e
  {
    var seg := b + ['.'] + e;
    LastIndexAfterStem(b, e);
    assert |seg| >= 3;
    assert seg[|b|..] == ['.'] + e;
  }

  /** Only the last extension counts: "<stem>.<e>" has extension ".<e>" for any non-empty `e` without '.' or '/'. */
  lemma LastExtensionCounts(stem: string, e: string)
    requires stem != [] && stem[|stem| - 1] != '/'
    requires e != [] && '.' !in e && '/' !in e
    ensures ExtName(stem + ['.'] + e) == ['.'] + e
  {
    var p := stem + ['.'] + e;
    assert p[|p| - 1] == e[|e| - 1];
    assert forall i :: |stem| <= i < |p| ==> p[i] != '/' by {
      forall i | |stem| <= i < |p| ensures p[i] != '/' {
        if i > |stem| { assert p[i] == e[i - |stem| - 1]; }
      }
    }
    BaseNameFrom(p, |stem|);
    SegmentStartPrefix(p, |stem|);
    assert p[..|stem|] == stem;
    var st := SegmentStart(stem, |stem|);
    var b := stem[st..];
    assert b != [];
    assert p[st..] == b + ['.'] + e;
    SegmentExtensionAfterStem(b, e);
  }

  /** A bare dotfile such as ".pdf" has no extension and is rejected. */
  lemma DotfileHasNoExtension(e: string)
    requires '.' !in e && '/' !in e
    ensures ExtName(['.'] + e) == ""
    ensures !ValidateFileType(['.'] + e)
  {
    var p := ['.'] + e;
    assert ([] + ['.'] + e) == p;
    SegmentStartAfterStem([], p);
    assert PathEnd(p) == |p|;
    assert BaseName(p) == p;
    LastIndexAfterStem([], e);
  }

  /** Validation of "<stem>.<e>" is decided by the lower-cased last extension ".<e>" alone. */
  lemma LastExtensionDecides(stem: string, e: string)
    requires stem != [] && stem[|stem| - 1] != '/'
    requires e != [] && '.' !in e && '/' !in e
    ensures ValidateFileType(stem + ['.'] + e) <==> ToLower(['.'] + e) in AllowedExtensions
  {
    LastExtensionCounts(stem, e);
  }

  /** Case does not matter: any name ending in ".PDF" is accepted. */
  lemma UpperCaseNameAccepted(stem: string)
    requires stem != [] && stem[|stem| - 1] != '/'
    ensures ValidateFileType(stem + ".PDF")
  {
    var e := "PDF";
    assert stem + ".PDF" == stem + ['.'] + e;
    LastExtensionDecides(stem, e);
    var l := ToLower(['.'] + e);
    assert l[1] == LowerChar('P') == 'p';
    assert l[2] == LowerChar('D') == 'd';
    assert l[3] == LowerChar('F') == 'f';
    assert l == ".pdf";
  }

  /** ".exe" lower-cases to itself, which is not an allowed extension. */
  lemma ExeNotAllowed(e: string)
    requires e == "exe"
    ensures ToLower(['.'] + e) !in AllowedExtensions
  {
    var l := ToLower(['.'] + e);
    assert l[1] == LowerChar('e') == 'e';
    assert l[2] == LowerChar('x') == 'x';
    assert l != AllowedExtensions[0] && l != AllowedExtensions[1] && l != AllowedExtensions[2];
  }

  /** Only the last extension counts: any name ending in ".pdf.exe" is rejected. */
  lemma DoubleExtensionRejected(stem: string)
    requires stem != [] && stem[|stem| - 1] != '/'
    ensures !ValidateFileType(stem + ".pdf.exe")
  {
    var inner, e := stem + ".pdf", "exe";
    assert ".pdf.exe" == ".pdf" + ['.'] + e;
    assert stem + (".pdf" + ['.'] + e) == inner + ['.'] + e;
    assert inner[|inner| - 1] == 'f';
    LastExtensionDecides(inner, e);
    ExeNotAllowed(e);
  }

  lemma BareDotfileRejected()
    ensures !ValidateFileType(".pdf")
  {
    DotfileHasNoExtension("pdf");
    assert ".pdf" == ['.'] + "pdf";
  }
}
