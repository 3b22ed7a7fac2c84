/** POSIX path helpers the Python backends rely on: `os.path.basename`,
    the extension part of `os.path.splitext`, and `str.lower` restricted to
    ASCII letters. */
module Paths {

  /** `os.path.basename(p)`: everything after the last '/'. */
  function Basename(p: string): (r: string)
    ensures '/' !in r
    ensures |r| <= |p| && r == p[|p| - |r|..]
    ensures |r| < |p| ==> p[|p| - |r| - 1] == '/'
    decreases |p|
  {
    if |p| == 0 || p[|p| - 1] == '/' then ""
    else
      var b := Basename(p[..|p| - 1]);
      assert p[..|p| - 1][|p| - 1 - |b|..] + [p[|p| - 1]] == p[|p| - 1 - |b|..];
      b + [p[|p| - 1]]
  }

  /** A path without '/' is its own base name. */
  lemma {:induction false} BasenameOfName(name: string)
    requires '/' !in name
    ensures Basename(name) == name
    decreases |name|
  {
    if |name| > 0 {
      BasenameOfName(name[..|name| - 1]);
      assert name[..|name| - 1] + [name[|name| - 1]] == name;
    }
  }

  /** The base name of `dir/name` is `name`, whatever the directory. */
  lemma {:induction false} BasenameAfterSlash(dir: string, name: string)
    requires '/' !in name
    ensures Basename(dir + "/" + name) == name
    decreases |name|
  {
    var p := dir + "/" + name;
    if |name| == 0 {
      assert p[|p| - 1] == '/';
    } else {
      BasenameAfterSlash(dir, name[..|name| - 1]);
      assert p[..|p| - 1] == dir + "/" + name[..|name| - 1];
      assert name[..|name| - 1] + [name[|name| - 1]] == name;
    }
  }

  /** Position of the last `c` in `s`, if any. */
  function LastIndexOf(s: string, c: char): (r: int)
    ensures -1 <= r < |s|
    ensures r >= 0 ==> s[r] == c
    ensures forall i :: r < i < |s| ==> s[i] != c
    decreases |s|
  {
    if |s| == 0 then -1
    else if s[|s| - 1] == c then |s| - 1
    else LastIndexOf(s[..|s| - 1], c)
  }

  /** Some character before position `d` of `b` is not a dot. */
  predicate HasStem(b: string, d: int)
    requires d <= |b|
  {
    exists i :: 0 <= i < d && b[i] != '.'
  }

  /** The extension `os.path.splitext` splits off: from the last dot of the
      base name to its end, unless the base name has no dot or only dots
      before its last dot (`.bashrc` has no extension). */
  function Extension(p: string): (e: string)
    ensures e == "" || (e[0] == '.' && '.' !in e[1..] && '/' !in e)
    ensures |e| <= |p| && e == p[|p| - |e|..]
  {
    var b := Basename(p);
    var d := LastIndexOf(b, '.');
    if d >= 0 && HasStem(b, d) then
      assert p[|p| - |b[d..]|..] == b[d..];
      b[d..]
    else ""
  }

  /** A name with a stem and a dotted suffix has that suffix as its
      extension. */
  lemma ExtensionOfDotted(stem: string, ext: string)
    requires '/' !in stem && '/' !in ext && '.' !in ext
    requires HasStem(stem, |stem|)
    ensures Extension(stem + "." + ext) == "." + ext
  {
    var p := stem + "." + ext;
    assert '/' !in p by {
      assert forall i :: 0 <= i < |p| ==> p[i] == (if i < |stem| then stem[i] else if i == |stem| then '.' else ext[i - |stem| - 1]);
    }
    BasenameOfName(p);
    var d := LastIndexOf(p, '.');
    assert p[|stem|] == '.';
    assert d == |stem|;
    assert HasStem(p, d) by {
      var i :| 0 <= i < |stem| && stem[i] != '.';
      assert p[i] == stem[i];
    }
    assert p[d..] == "." + ext;
  }

  /** A name whose only characters before its last dot are dots (".pdf",
      "..pdf") has no extension: the leading dots are not a stem. */
  lemma ExtensionOfLeadingDots(dots: string, ext: string)
    requires forall i :: 0 <= i < |dots| ==> dots[i] == '.'
    requires '/' !in ext && '.' !in ext
    ensures Extension(dots + "." + ext) == ""
  {
    var p := dots + "." + ext;
    assert forall i :: 0 <= i < |p| ==> p[i] == (if i < |dots| then '.' else if i == |dots| then '.' else ext[i - |dots| - 1]);
    assert '/' !in p;
    BasenameOfName(p);
    var d := LastIndexOf(p, '.');
    assert p[|dots|] == '.';
    assert d == |dots|;
    assert !HasStem(p, d);
  }

  /** A name without a dot has no extension. */
  lemma ExtensionWithoutDot(name: string)
    requires '/' !in name && '.' !in name
    ensures Extension(name) == ""
  {
    BasenameOfName(name);
  }

  /** `c.lower()` for ASCII letters; every other character is left alone. */
  function LowerChar(c: char): (r: char)
    ensures !('A' <= r <= 'Z')
    ensures !('A' <= c <= 'Z') ==> r == c
  {
    if 'A' <= c <= 'Z' then (c as int + 32) as char else c
  }

  /** `s.lower()` over ASCII letters. */
  function Lower(s: string): (r: string)
    ensures |r| == |s|
    ensures forall i :: 0 <= i < |s| ==> r[i] == LowerChar(s[i])
  {
    seq(|s|, i requires 0 <= i < |s| => LowerChar(s[i]))
  }

  /** Lowering twice is lowering once. */
  lemma LowerIdempotent(s: string)
    ensures Lower(Lower(s)) == Lower(s)
  {
  }

  /** A string without upper-case letters is its own lower-case form. */
  lemma LowerOfLower(s: string)
    requires forall i :: 0 <= i < |s| ==> !('A' <= s[i] <= 'Z')
    ensures Lower(s) == s
  {
  }

  /** Upper-case letters become their lower-case forms. */
  lemma LowerUpperExtensions()
    ensures Lower(".PDF") == ".pdf" && Lower(".Docx") == ".docx" && Lower(".TXT") == ".txt"
  {
    var p := Lower(".PDF");
    assert p[0] == '.' && p[1] == 'p' && p[2] == 'd' && p[3] == 'f';
    var d := Lower(".Docx");
    assert d[0] == '.' && d[1] == 'd' && d[2] == 'o' && d[3] == 'c' && d[4] == 'x';
    var t := Lower(".TXT");
    assert t[0] == '.' && t[1] == 't' && t[2] == 'x' && t[3] == 't';
  }
}
