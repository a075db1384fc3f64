/**
  `buildDownloadFilename` (popup.js): the `course/assignment/file` path an
  attachment is saved under, with the extension taken from the URL when the
  name lacks one, and a per-name counter that numbers repeated names.
 */
module Filenames {
  import opened Options
  import opened Text
  import opened Sanitize
  import opened Downloads

  const CourseFallback: string := "课程"
  const AssignmentFallback: string := "作业"
  const DefaultPrefix: string := "附件_"

  /** `附件_${fallbackIndex + 1}`. */
  function DefaultName(index: nat): string {
    DefaultPrefix + NatToString(index + 1)
  }

  /** A character the capture group `[^.\\/]` accepts. */
  predicate ExtChar(c: char) {
    c != '.' && c != '\\' && c != '/'
  }

  /** `/\.([^.\\/]+)$/` matches `path`, capturing `ext`. */
  ghost predicate ExtensionMatch(path: string, ext: string) {
    && 0 < |ext| < |path|
    && path[|path| - |ext| - 1] == '.'
    && path[|path| - |ext|..] == ext
    && forall i | 0 <= i < |ext| :: ExtChar(ext[i])
  }

  /** The extension the URL's pathname ends in, with its dot, or `""`; an
      absent pathname stands for a URL that does not parse. */
  function UrlExtension(pathname: Option<string>): (e: string)
    ensures e != [] ==> e[0] == '.' && pathname.Some? && ExtensionMatch(pathname.value, e[1..])
  {
    if pathname.None? then ""
    else
      var p := pathname.value;
      var d := LastIndexOf(p, '.');
      if d < 0 then ""
      else
        var tail := p[d + 1..];
        if tail != [] && forall i | 0 <= i < |tail| :: tail[i] != '\\' && tail[i] != '/' then "." + tail else ""
  }

  /** Whenever the pattern matches, its capture is the extension used; so an
      empty extension means the pattern does not match. */
  lemma ExtensionOfMatch(p: string, ext: string)
    requires ExtensionMatch(p, ext)
    ensures UrlExtension(Some(p)) == "." + ext
  {
    var k := |p| - |ext| - 1;
    forall j | k < j < |p| ensures ExtChar(p[j]) {
      assert p[j] == ext[j - k - 1];
    }
    var d := LastIndexOf(p, '.');
    assert p[k] == '.';
    assert d == k;
    var tail := p[d + 1..];
    assert tail == ext;
    assert forall i | 0 <= i < |tail| :: tail[i] != '\\' && tail[i] != '/';
  }

  predicate IsAsciiAlnum(c: char) {
    ('A' <= c <= 'Z') || ('a' <= c <= 'z') || ('0' <= c <= '9')
  }

  /** The length of the longest ASCII-alphanumeric suffix. */
  function TrailingAlnums(s: string): (n: nat)
    ensures n <= |s|
    ensures forall i | |s| - n <= i < |s| :: IsAsciiAlnum(s[i])
    ensures n < |s| ==> !IsAsciiAlnum(s[|s| - n - 1])
  {
    if s == [] || !IsAsciiAlnum(s[|s| - 1]) then 0 else TrailingAlnums(s[..|s| - 1]) + 1
  }

  /** `/\.[A-Za-z0-9]{1,6}$/.test(name)`, decided from the alphanumeric suffix. */
  predicate HasExtension(name: string) {
    var n := TrailingAlnums(name);
    1 <= n <= 6 && n < |name| && name[|name| - n - 1] == '.'
  }

  /** The pattern matches with `k` alphanumerics after the dot. */
  ghost predicate ExtensionSuffix(name: string, k: int) {
    && 1 <= k <= 6 && k < |name|
    && name[|name| - k - 1] == '.'
    && forall i | |name| - k <= i < |name| :: IsAsciiAlnum(name[i])
  }

  /** The suffix test decides exactly the regular expression. */
  lemma HasExtensionIff(name: string)
    ensures HasExtension(name) <==> exists k :: ExtensionSuffix(name, k)
  {
    var n := TrailingAlnums(name);
    if exists k :: ExtensionSuffix(name, k) {
      var k :| ExtensionSuffix(name, k);
      assert !IsAsciiAlnum('.');
      assert k <= n;
      assert k >= n;
    }
    if HasExtension(name) {
      assert ExtensionSuffix(name, n);
    }
  }

  /** `sanitizePathPart(attachment.text, defaultName) || defaultName`. */
  function RawName(text: string, defaultName: string): (r: string)
    ensures r != [] && Clean(r) && Trimmed(r)
    ensures r == SanitizePart(text, defaultName)
  {
    var n := SanitizePart(text, defaultName);
    if n != [] then n else defaultName
  }

  /** The file name before numbering: the raw name, with the URL's extension
      appended when it has none of its own, and the default name when the
      result is blank. */
  function FileCore(rawName: string, ext: string, defaultName: string): (r: string)
    // a name that starts with a non-space is kept, gaining the URL's
    // extension only when it has no extension of its own
    ensures rawName != [] && !IsSpace(rawName[0]) ==>
              r == (if HasExtension(rawName) || ext == [] then rawName else rawName + ext)
    // a blank name, with nothing to append, falls back to the default name
    ensures Blank(rawName) && (HasExtension(rawName) || ext == []) ==> r == defaultName
  {
    var core := if HasExtension(rawName) then rawName else if ext != [] then rawName + ext else rawName;
    if Trim(core) == [] then (if ext != [] then defaultName + ext else defaultName) else core
  }

  /** Neither fallback of the source ever applies: the sanitized name is never
      empty, and a name that starts with a non-space is never blank. */
  lemma FallbacksNeverApply(text: string, ext: string, index: nat)
    ensures var raw := SanitizePart(text, DefaultName(index));
            && RawName(text, DefaultName(index)) == raw
            && FileCore(raw, ext, DefaultName(index)) == (if HasExtension(raw) || ext == [] then raw else raw + ext)
  {
    var raw := SanitizePart(text, DefaultName(index));
    var core := if HasExtension(raw) then raw else if ext != [] then raw + ext else raw;
    assert core[0] == raw[0];
    assert !Blank(core);
  }

  /** The `(n)` that marks the n-th use of a name. */
  function Tag(count: nat): string {
    "(" + NatToString(count + 1) + ")"
  }

  /** Where the tag goes: before the last dot when that dot is not the first
      character, otherwise at the end. */
  function InsertionPoint(core: string): (p: nat)
    ensures p == |core| || 0 < p < |core|
    ensures p < |core| ==> core[p] == '.' && forall j | p < j < |core| :: core[j] != '.'
    ensures p == |core| ==> forall j | 0 < j < |core| :: core[j] != '.'
  {
    var d := LastIndexOf(core, '.');
    if d > 0 then d else |core|
  }

  /** The name for a use that `count` earlier uses of the same key precede:
      unchanged for the first use, otherwise with the tag inserted and
      everything else kept in place. */
  function Numbered(core: string, count: nat): (r: string)
    ensures count == 0 ==> r == core
    ensures count > 0 ==>
              var p := InsertionPoint(core);
              && |r| == |core| + |Tag(count)|
              && r[..p] == core[..p]
              && r[p..p + |Tag(count)|] == Tag(count)
              && r[p + |Tag(count)|..] == core[p..]
  {
    if count == 0 then core
    else
      var d := LastIndexOf(core, '.');
      if d > 0 then core[..d] + Tag(count) + core[d..] else core + Tag(count)
  }

  /** Different uses of one name get different file names. */
  lemma NumberedInjective(core: string, m: nat, n: nat)
    requires Numbered(core, m) == Numbered(core, n)
    ensures m == n
  {
    var r := Numbered(core, m);
    var p := InsertionPoint(core);
    if m > 0 && n > 0 {
      assert |Tag(m)| == |Tag(n)|;
      assert Tag(m) == r[p..p + |Tag(m)|] == Tag(n);
      assert NatToString(m + 1) == Tag(m)[1..|Tag(m)| - 1];
      assert NatToString(n + 1) == Tag(n)[1..|Tag(n)| - 1];
      NatToStringInjective(m + 1, n + 1);
    } else {
      assert |Numbered(core, m)| == |core| + (if m == 0 then 0 else |Tag(m)|);
      assert |Numbered(core, n)| == |core| + (if n == 0 then 0 else |Tag(n)|);
    }
  }

  /** Numbering is per name, not per path: the second `a.pdf` is tagged into
      exactly the name another attachment may already carry untagged. */
  lemma NumberedCanMeetAnotherName()
    ensures "a.pdf" != "a(2).pdf" && Numbered("a.pdf", 1) == Numbered("a(2).pdf", 0)
  {
    var name := "a.pdf";
    assert name[1] == '.' && name[2] != '.' && name[3] != '.' && name[4] != '.';
    assert LastIndexOf(name, '.') == 1;
    assert NatToString(2) == "2";
  }

  function CoursePart(e: DownloadEntry): string {
    SanitizePart(e.course, CourseFallback)
  }

  function AssignmentPart(e: DownloadEntry): string {
    SanitizePart(e.assignmentTitle, AssignmentFallback)
  }

  /** The file name of the attachment at position `index` before numbering. */
  function BaseName(e: DownloadEntry, index: nat, pathname: Option<string>): string {
    FileCore(RawName(e.text, DefaultName(index)), UrlExtension(pathname), DefaultName(index))
  }

  /** `${coursePart}|${assignmentPart}|${filenameCore}`. */
  function NameKey(e: DownloadEntry, index: nat, pathname: Option<string>): string {
    CoursePart(e) + "|" + AssignmentPart(e) + "|" + BaseName(e, index, pathname)
  }

  /** `filenameCounts.get(key) || 0`. */
  function CountOf(counts: map<string, nat>, key: string): nat {
    if key in counts then counts[key] else 0
  }

  datatype Built = Built(path: string, counts: map<string, nat>)

  /** `buildDownloadFilename(attachment, fallbackIndex, filenameCounts)`:
      the path, and the counter map after the call. */
  function BuildFilename(e: DownloadEntry, index: nat, pathname: Option<string>, counts: map<string, nat>): (b: Built)
    ensures CountOf(b.counts, NameKey(e, index, pathname)) == CountOf(counts, NameKey(e, index, pathname)) + 1
    ensures forall k | k != NameKey(e, index, pathname) :: CountOf(b.counts, k) == CountOf(counts, k)
  {
    var key := NameKey(e, index, pathname);
    var count := CountOf(counts, key);
    Built(CoursePart(e) + "/" + AssignmentPart(e) + "/" + Numbered(BaseName(e, index, pathname), count),
          counts[key := count + 1])
  }

  /** `s.split(sep)`. */
  function SplitOn(s: string, sep: char): (parts: seq<string>)
    ensures |parts| >= 1
    decreases |s|
  {
    if s == [] then [[]]
    else
      var rest := SplitOn(s[1..], sep);
      if s[0] == sep then [[]] + rest else [[s[0]] + rest[0]] + rest[1..]
  }

  ghost predicate Free(s: string, sep: char) {
    forall i | 0 <= i < |s| :: s[i] != sep
  }

  lemma {:induction false} SplitOnFree(a: string, sep: char)
    requires Free(a, sep)
    ensures SplitOn(a, sep) == [a]
    decreases |a|
  {
    if a != [] {
      assert Free(a[1..], sep);
      SplitOnFree(a[1..], sep);
      assert [a[0]] + a[1..] == a;
    }
  }

  lemma {:induction false} SplitOnJoin(a: string, b: string, sep: char)
    requires Free(a, sep)
    ensures SplitOn(a + [sep] + b, sep) == [a] + SplitOn(b, sep)
    decreases |a|
  {
    var s := a + [sep] + b;
    if a == [] {
      assert s == [sep] + b;
      assert s[1..] == b;
    } else {
      assert s[0] == a[0] && s[0] != sep;
      assert s[1..] == a[1..] + [sep] + b;
      assert Free(a[1..], sep);
      SplitOnJoin(a[1..], b, sep);
      var rest := SplitOn(s[1..], sep);
      assert rest == [a[1..]] + SplitOn(b, sep);
      assert [a[0]] + a[1..] == a;
      assert SplitOn(s, sep) == [[a[0]] + rest[0]] + rest[1..];
    }
  }

  lemma DigitsFree(n: nat)
    ensures Free(NatToString(n), '/')
  {
  }

  lemma FreeConcat(a: string, b: string, sep: char)
    requires Free(a, sep) && Free(b, sep)
    ensures Free(a + b, sep)
  {
  }

  lemma DefaultNameFree(index: nat)
    ensures Free(DefaultName(index), '/')
  {
    DigitsFree(index + 1);
    assert Free(DefaultPrefix, '/');
    FreeConcat(DefaultPrefix, NatToString(index + 1), '/');
  }

  lemma ExtensionFree(pathname: Option<string>)
    ensures Free(UrlExtension(pathname), '/')
  {
    var e := UrlExtension(pathname);
    if e != [] {
      assert e == [e[0]] + e[1..];
      forall i | 0 <= i < |e| ensures e[i] != '/' {
        if i > 0 {
          assert e[i] == e[1..][i - 1];
        }
      }
    }
  }

  lemma BaseNameFree(e: DownloadEntry, index: nat, pathname: Option<string>)
    ensures Free(BaseName(e, index, pathname), '/')
  {
    var d := DefaultName(index);
    var ext := UrlExtension(pathname);
    DefaultNameFree(index);
    ExtensionFree(pathname);
    var raw := RawName(e.text, d);
    assert Free(raw, '/');
    FreeConcat(raw, ext, '/');
    FreeConcat(d, ext, '/');
  }

  lemma NumberedFree(core: string, count: nat)
    requires Free(core, '/')
    ensures Free(Numbered(core, count), '/')
  {
    if count > 0 {
      DigitsFree(count + 1);
      assert Free(Tag(count), '/');
      var r := Numbered(core, count);
      var p := InsertionPoint(core);
      var t := |Tag(count)|;
      forall i | 0 <= i < |r| ensures r[i] != '/' {
        if i < p {
          assert r[i] == r[..p][i] == core[..p][i];
        } else if i < p + t {
          assert r[i] == r[p..p + t][i - p];
        } else {
          assert r[i] == r[p + t..][i - p - t] == core[p..][i - p - t];
        }
      }
    }
  }

  lemma SplitThree(c: string, a: string, f: string, sep: char)
    requires Free(c, sep) && Free(a, sep) && Free(f, sep)
    ensures SplitOn(c + [sep] + a + [sep] + f, sep) == [c, a, f]
  {
    assert c + [sep] + a + [sep] + f == c + [sep] + (a + [sep] + f);
    SplitOnJoin(c, a + [sep] + f, sep);
    SplitOnJoin(a, f, sep);
    SplitOnFree(f, sep);
  }

  /** `coursePart/assignmentPart/filenameCore`: the path splits at its slashes
      into exactly the two sanitized folder names and the numbered file name. */
  lemma PathParts(e: DownloadEntry, index: nat, pathname: Option<string>, counts: map<string, nat>)
    ensures SplitOn(BuildFilename(e, index, pathname, counts).path, '/')
         == [CoursePart(e), AssignmentPart(e),
             Numbered(BaseName(e, index, pathname), CountOf(counts, NameKey(e, index, pathname)))]
  {
    var f := Numbered(BaseName(e, index, pathname), CountOf(counts, NameKey(e, index, pathname)));
    BaseNameFree(e, index, pathname);
    NumberedFree(BaseName(e, index, pathname), CountOf(counts, NameKey(e, index, pathname)));
    SplitThree(CoursePart(e), AssignmentPart(e), f, '/');
  }
}
