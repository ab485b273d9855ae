/** File selection and output naming in the batch loop: a directory entry is
  * converted when its lower-cased name ends with ".tif", and its thumbnail is
  * written to `os.path.join(output_folder, os.path.splitext(name)[0] + "_RGB.jpg")`.
  * Paths follow POSIX `os.path` (separator '/'); lower-casing is ASCII only. */
module Naming {

  const TifSuffix: string := ".tif"
  const OutputSuffix: string := "_RGB.jpg"

  predicate IsUpper(c: char) {
    'A' <= c <= 'Z'
  }

  /** `str.lower()` on one ASCII character. */
  function LowerChar(c: char): (d: char)
    ensures !IsUpper(d)
    ensures !IsUpper(c) ==> d == c
    ensures IsUpper(c) ==> 'a' <= d <= 'z' && d as int - c as int == 'a' as int - 'A' as int
  {
    if IsUpper(c) then (c as int - 'A' as int + 'a' as int) as char else c
  }

  /** `str.lower()`, character by character. */
  function Lower(s: string): (r: string)
    ensures |r| == |s|
    ensures forall i :: 0 <= i < |s| ==> r[i] == LowerChar(s[i])
  {
    seq(|s|, i requires 0 <= i < |s| => LowerChar(s[i]))
  }

  /** `str.endswith`. */
  predicate EndsWith(s: string, suffix: string) {
    |suffix| <= |s| && s[|s| - |suffix|..] == suffix
  }

  /** The batch loop's filter: `name.lower().endswith(".tif")`. */
  predicate IsTif(name: string) {
    EndsWith(Lower(name), TifSuffix)
  }

  /** A name is selected exactly when its last four characters spell ".tif"
    * in some mixture of letter cases. */
  lemma TifIffExtension(name: string)
    ensures IsTif(name) <==> |name| >= 4 && Lower(name[|name| - 4..]) == TifSuffix
  {
    if |name| >= 4 {
      assert Lower(name)[|name| - 4..] == Lower(name[|name| - 4..]);
    }
  }

  /** A four-character extension that lower-cases to ".tif" is one dot followed
    * by three letters. */
  lemma TifExtensionShape(ext: string)
    requires Lower(ext) == TifSuffix
    ensures |ext| == 4 && ext[0] == '.'
    ensures forall k :: 1 <= k < |ext| ==> ext[k] != '.' && ext[k] != '/'
  {
    assert LowerChar(ext[0]) == '.';
    forall k | 1 <= k < |ext|
      ensures ext[k] != '.' && ext[k] != '/'
    {
      assert LowerChar(ext[k]) == TifSuffix[k];
    }
  }

  /** `str.rfind` for one character: the last index holding `c`, or -1. */
  function RFind(s: string, c: char): (i: int)
    ensures -1 <= i < |s|
    ensures 0 <= i ==> s[i] == c
    ensures forall k :: i < k < |s| ==> s[k] != c
  {
    if s == [] then -1
    else if s[|s| - 1] == c then |s| - 1
    else RFind(s[..|s| - 1], c)
  }

  predicate AllDots(s: string) {
    forall k :: 0 <= k < |s| ==> s[k] == '.'
  }

  /** The two halves of `p` around index `at`. */
  function SplitAt(p: string, at: nat): (parts: (string, string))
    requires at <= |p|
    ensures parts.0 + parts.1 == p && |parts.0| == at
  {
    (p[..at], p[at..])
  }

  /** `posixpath.splitext`: split at the last dot of the last path component,
    * unless every character before that dot in the component is a dot (so
    * ".tif" and "..tif" have no extension). */
  function SplitExt(p: string): (parts: (string, string))
    ensures parts.0 + parts.1 == p
  {
    var sep := RFind(p, '/');
    var dot := RFind(p, '.');
    if dot > sep && !AllDots(p[sep + 1..dot]) then SplitAt(p, dot) else (p, "")
  }

  /** The extension `splitext` returns is empty, or the last dot of the name
    * followed by characters that are neither dots nor slashes. */
  lemma SplitExtExtension(p: string)
    ensures var ext := SplitExt(p).1;
            (ext == [] || ext[0] == '.') &&
            forall k :: 0 < k < |ext| ==> ext[k] != '.' && ext[k] != '/'
  {
    var sep := RFind(p, '/');
    var dot := RFind(p, '.');
    if dot > sep && !AllDots(p[sep + 1..dot]) {
      var ext := p[dot..];
      assert SplitExt(p).1 == ext;
      forall k | 0 < k < |ext|
        ensures ext[k] != '.' && ext[k] != '/'
      {
        assert ext[k] == p[dot + k];
      }
    }
  }

  /** A name `stem + ext` whose extension is a dot followed by dot-free,
    * slash-free characters, and whose stem holds a character other than a
    * dot, splits into exactly `stem` and `ext`. */
  lemma SplitExtOfStem(stem: string, ext: string)
    requires '/' !in stem && !AllDots(stem)
    requires |ext| > 0 && ext[0] == '.'
    requires forall k :: 1 <= k < |ext| ==> ext[k] != '.' && ext[k] != '/'
    ensures SplitExt(stem + ext) == (stem, ext)
  {
    var p := stem + ext;
    var sep := RFind(p, '/');
    var dot := RFind(p, '.');
    assert p[|stem|] == '.';
    assert dot == |stem|;
    forall k | 0 <= k < |p|
      ensures p[k] != '/'
    {
      if k < |stem| {
        assert p[k] == stem[k];
      }
    }
    assert sep == -1;
    assert p[sep + 1..dot] == stem;
  }

  /** A name whose stem is nothing but dots has no extension at all. */
  lemma SplitExtOfDotStem(stem: string, ext: string)
    requires '/' !in stem && AllDots(stem)
    requires |ext| > 0 && ext[0] == '.'
    requires forall k :: 1 <= k < |ext| ==> ext[k] != '.' && ext[k] != '/'
    ensures SplitExt(stem + ext) == (stem + ext, "")
  {
    var p := stem + ext;
    var sep := RFind(p, '/');
    var dot := RFind(p, '.');
    assert p[|stem|] == '.';
    assert dot == |stem|;
    forall k | 0 <= k < |p|
      ensures p[k] != '/'
    {
      if k < |stem| {
        assert p[k] == stem[k];
      }
    }
    assert sep == -1;
    assert p[sep + 1..dot] == stem;
  }

  /** `posixpath.join(dir, name)`. */
  function Join(dir: string, name: string): (path: string)
    ensures EndsWith(path, name)
    ensures |name| > 0 && name[0] == '/' ==> path == name
    ensures !(|name| > 0 && name[0] == '/') ==> |dir| <= |path| && path[..|dir|] == dir
    ensures !(|name| > 0 && name[0] == '/') && |dir| > 0 ==>
              |dir| + |name| <= |path| <= |dir| + |name| + 1 && path[|path| - |name| - 1] == '/'
    ensures !(|name| > 0 && name[0] == '/') ==>
              |path| == |dir| + |name| + if dir == [] || dir[|dir| - 1] == '/' then 0 else 1
  {
    if |name| > 0 && name[0] == '/' then name
    else if dir == [] || dir[|dir| - 1] == '/' then dir + name
    else dir + "/" + name
  }

  /** The thumbnail's file name: `os.path.splitext(name)[0] + "_RGB.jpg"`. */
  function OutputName(name: string): string {
    SplitExt(name).0 + OutputSuffix
  }

  /** For a selected name `stem + ext` whose stem has a non-dot character the
    * output is `stem + "_RGB.jpg"`, whatever the letter case of ".tif". */
  lemma OutputNameOfTif(stem: string, ext: string)
    requires '/' !in stem && !AllDots(stem)
    requires Lower(ext) == TifSuffix
    ensures IsTif(stem + ext)
    ensures OutputName(stem + ext) == stem + OutputSuffix
  {
    TifExtensionShape(ext);
    SplitExtOfStem(stem, ext);
    var p := stem + ext;
    TifIffExtension(p);
    assert p[|p| - 4..] == ext;
  }

  /** A selected name whose stem is only dots keeps its whole name, extension
    * included: ".tif" becomes ".tif_RGB.jpg". */
  lemma OutputNameOfDotStem(stem: string, ext: string)
    requires '/' !in stem && AllDots(stem)
    requires Lower(ext) == TifSuffix
    ensures OutputName(stem + ext) == stem + ext + OutputSuffix
  {
    TifExtensionShape(ext);
    SplitExtOfDotStem(stem, ext);
  }

  /** Names that differ only in the letter case of ".tif" share one output
    * file, so the later conversion overwrites the earlier. */
  lemma ExtensionCaseCollides(stem: string, ext1: string, ext2: string)
    requires '/' !in stem && !AllDots(stem)
    requires Lower(ext1) == TifSuffix && Lower(ext2) == TifSuffix
    ensures IsTif(stem + ext1) && IsTif(stem + ext2)
    ensures OutputName(stem + ext1) == OutputName(stem + ext2)
  {
    OutputNameOfTif(stem, ext1);
    OutputNameOfTif(stem, ext2);
  }

  /** A name that is only ".tif" is selected and keeps its dot:
    * its thumbnail is ".tif_RGB.jpg". */
  lemma DotOnlyNameKeepsExtension()
    ensures IsTif(".tif")
    ensures OutputName(".tif") == ".tif_RGB.jpg"
  {
    var ext := ".tif";
    assert Lower(ext) == TifSuffix;
    OutputNameOfDotStem("", ext);
    assert "" + ext == ext;
  }

  /** Distinct stems give distinct output names. */
  lemma {:induction false} OutputNameInjective(n1: string, n2: string)
    requires OutputName(n1) == OutputName(n2)
    ensures SplitExt(n1).0 == SplitExt(n2).0
  {
    var s1, s2 := SplitExt(n1).0, SplitExt(n2).0;
    assert |s1| == |s2|;
    assert s1 == OutputName(n1)[..|s1|];
  }

  /** A suffix of a suffix is a suffix. */
  lemma EndsWithTransitive(a: string, b: string, c: string)
    requires EndsWith(a, b) && EndsWith(b, c)
    ensures EndsWith(a, c)
  {
    assert a[|a| - |c|..] == a[|a| - |b|..][|b| - |c|..];
  }

  /** Every output path ends with "_RGB.jpg". */
  lemma OutputPathShape(dir: string, name: string)
    ensures EndsWith(Join(dir, OutputName(name)), OutputSuffix)
  {
    var out := OutputName(name);
    assert out[|out| - |OutputSuffix|..] == OutputSuffix;
    EndsWithTransitive(Join(dir, out), out, OutputSuffix);
  }
}
