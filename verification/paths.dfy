/**
 * Upload filename validation shared by both servers: POSIX `os.path.splitext`,
 * lower-casing, and membership in the fixed set of video extensions.
 */
module Paths {
  import opened Records

  /** Index of the last occurrence of `c` in `s`, or -1 (`str.rfind`). */
  function LastIndex(s: string, c: char): (i: int)
    ensures -1 <= i < |s|
    ensures i >= 0 ==> s[i] == c
    ensures forall j :: i < j < |s| ==> s[j] != c
  {
    if |s| == 0 then -1
    else if s[|s| - 1] == c then |s| - 1
    else LastIndex(s[..|s| - 1], c)
  }

  /** The two facts in the contract of `LastIndex` determine it. */
  lemma LastIndexIs(s: string, c: char, i: int)
    requires -1 <= i < |s|
    requires i >= 0 ==> s[i] == c
    requires forall j :: i < j < |s| ==> s[j] != c
    ensures LastIndex(s, c) == i
  {
  }

  /** Index of the first non-dot character of `p[lo..hi]`, or `hi` when there is none. */
  function FirstNonDot(p: string, lo: nat, hi: nat): (k: nat)
    requires lo <= hi <= |p|
    ensures lo <= k <= hi
    ensures forall j :: lo <= j < k ==> p[j] == '.'
    ensures k < hi ==> p[k] != '.'
    decreases hi - lo
  {
    if lo == hi || p[lo] != '.' then lo else FirstNonDot(p, lo + 1, hi)
  }

  /**
   * `os.path.splitext(p)[1]` on POSIX: from the last dot of the final path
   * component, provided something other than a dot precedes it within that
   * component; otherwise empty. Hence `.mp4` and `..mp4` have no extension.
   */
  function Ext(p: string): (ext: string)
    ensures |ext| <= |p| && ext == p[|p| - |ext|..]
    ensures ext == [] || ext[0] == '.'
    ensures forall j :: 1 <= j < |ext| ==> ext[j] != '.' && ext[j] != '/'
  {
    var sep := LastIndex(p, '/');
    var dot := LastIndex(p, '.');
    if dot > sep && FirstNonDot(p, sep + 1, dot) < dot then
      var ext := p[dot..];
      assert |p| - |ext| == dot;
      assert forall j :: 1 <= j < |ext| ==> ext[j] == p[dot + j];
      ext
    else
      assert p[|p|..] == [];
      []
  }

  /**
   * The other half of the rule: the extension is non-empty exactly when the
   * final component has a dot with a non-dot character somewhere before it,
   * and then it starts at the last dot.
   */
  lemma ExtIff(p: string)
    ensures Ext(p) != [] <==>
      exists j, d :: LastIndex(p, '/') < j < d < |p| && p[d] == '.' && p[j] != '.'
    ensures Ext(p) != [] ==> |p| - |Ext(p)| == LastIndex(p, '.') > LastIndex(p, '/')
  {
    var sep := LastIndex(p, '/');
    var dot := LastIndex(p, '.');
    if exists j, d :: sep < j < d < |p| && p[d] == '.' && p[j] != '.' {
      var j, d :| sep < j < d < |p| && p[d] == '.' && p[j] != '.';
      assert d <= dot;
      assert FirstNonDot(p, sep + 1, dot) <= j;
    }
    if Ext(p) != [] {
      var k := FirstNonDot(p, sep + 1, dot);
      assert sep < k < dot < |p| && p[dot] == '.' && p[k] != '.';
    }
  }

  /**
   * The loop of `genericpath._splitext`, which scans the final component from
   * its start for a non-dot character before the last dot.
   */
  method SplitExt(p: string) returns (root: string, ext: string)
    ensures root + ext == p
    ensures ext == Ext(p)
  {
    var sep := LastIndex(p, '/');
    var dot := LastIndex(p, '.');
    if dot > sep {
      var k := sep + 1;
      while k < dot
        invariant sep + 1 <= k <= dot
        invariant forall j :: sep + 1 <= j < k ==> p[j] == '.'
      {
        if p[k] != '.' {
          return p[..dot], p[dot..];
        }
        k := k + 1;
      }
    }
    return p, [];
  }

  /** U+212A KELVIN SIGN, the one non-ASCII character that `str.lower()` maps into ASCII. */
  const KelvinSign: char := '\U{212A}'

  /**
   * `str.lower()` as far as it can reach ASCII: A–Z become a–z and the Kelvin
   * sign becomes `k`; every other character stays.
   */
  function Lower(s: string): (r: string)
    ensures |r| == |s|
    ensures forall i :: 0 <= i < |s| && 'A' <= s[i] <= 'Z' ==> r[i] as int == s[i] as int + 32
    ensures forall i :: 0 <= i < |s| && s[i] == KelvinSign ==> r[i] == 'k'
    ensures forall i :: 0 <= i < |s| && !('A' <= s[i] <= 'Z') && s[i] != KelvinSign ==> r[i] == s[i]
    ensures forall i :: 0 <= i < |s| ==> !('A' <= r[i] <= 'Z') && r[i] != KelvinSign
  {
    seq(|s|, i requires 0 <= i < |s| =>
      if 'A' <= s[i] <= 'Z' then (s[i] as int + 32) as char
      else if s[i] == KelvinSign then 'k'
      else s[i])
  }

  const VideoExtensions: set<string> := {".mp4", ".mov", ".mkv", ".avi"}

  /** Why an upload was refused. */
  datatype Rejection = NoFilename | UnsupportedFormat

  datatype Checked = Accepted(ext: string) | Rejected(reason: Rejection)

  /**
   * `if not file.filename` followed by the extension test. An absent (None)
   * and an empty filename are both refused; the accepted extension is the
   * lower-cased one, which also names the stored file.
   */
  function CheckFilename(filename: Option<string>): (c: Checked)
    ensures filename.None? || filename.value == [] <==> c == Rejected(NoFilename)
    ensures c.Accepted? <==>
      filename.Some? && filename.value != [] && Lower(Ext(filename.value)) in VideoExtensions
    ensures c.Accepted? ==> c.ext == Lower(Ext(filename.value)) && c.ext in VideoExtensions
  {
    if filename.None? || filename.value == [] then Rejected(NoFilename)
    else
      var ext := Lower(Ext(filename.value));
      if ext in VideoExtensions then Accepted(ext) else Rejected(UnsupportedFormat)
  }

  /** Upper-case extensions are accepted and stored lower-cased. */
  lemma UpperCaseAccepted()
    ensures CheckFilename(Some("clip.MP4")) == Accepted(".mp4")
  {
    LastIndexIs("clip.MP4", '/', -1);
    LastIndexIs("clip.MP4", '.', 4);
    assert FirstNonDot("clip.MP4", 0, 4) == 0;
    var low := Lower(".MP4");
    assert low[0] == '.' && low[1] == 'm' && low[2] == 'p' && low[3] == '4';
    assert low == ".mp4";
  }

  /** A Kelvin sign in the extension lowers to `k`, so `clip.m\U{212A}v` is accepted as `.mkv`. */
  lemma KelvinSignAccepted()
    ensures CheckFilename(Some("clip.m\U{212A}v")) == Accepted(".mkv")
  {
    var name := "clip.m\U{212A}v";
    LastIndexIs(name, '/', -1);
    LastIndexIs(name, '.', 4);
    assert FirstNonDot(name, 0, 4) == 0;
    var low := Lower(name[4..]);
    assert low[0] == '.' && low[1] == 'm' && low[2] == 'k' && low[3] == 'v';
    assert low == ".mkv";
  }

  /** Only the last suffix counts: `clip.mp4.txt` is refused. */
  lemma LastSuffixOnly()
    ensures CheckFilename(Some("clip.mp4.txt")) == Rejected(UnsupportedFormat)
  {
    LastIndexIs("clip.mp4.txt", '/', -1);
    LastIndexIs("clip.mp4.txt", '.', 8);
    assert FirstNonDot("clip.mp4.txt", 0, 8) == 0;
    var low := Lower(".txt");
    assert low[1] == 't';
    assert low !in VideoExtensions by {
      assert ".mp4"[1] == 'm' && ".mov"[1] == 'm' && ".mkv"[1] == 'm' && ".avi"[1] == 'a';
    }
  }

  /** A leading dot starts a hidden name, not an extension. */
  lemma HiddenNameHasNoExtension()
    ensures Ext(".mp4") == []
    ensures Ext("..mp4") == []
    ensures Ext("videos/.mp4") == []
    ensures CheckFilename(Some(".mp4")) == Rejected(UnsupportedFormat)
  {
    LastIndexIs(".mp4", '/', -1);
    LastIndexIs(".mp4", '.', 0);
    LastIndexIs("..mp4", '/', -1);
    LastIndexIs("..mp4", '.', 1);
    assert FirstNonDot("..mp4", 0, 1) == 1;
    LastIndexIs("videos/.mp4", '/', 6);
    LastIndexIs("videos/.mp4", '.', 7);
    assert |Lower([])| == 0;
  }

  /** A dot in a directory name is not an extension of the file. */
  lemma DirectoryDotIgnored()
    ensures Ext("v.mp4/clip") == []
  {
    LastIndexIs("v.mp4/clip", '/', 5);
    LastIndexIs("v.mp4/clip", '.', 1);
  }
}
