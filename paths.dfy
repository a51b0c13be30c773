/** Python's `os.path.basename` and `os.path.splitext` on POSIX paths, which
    the exporters use to name their files. */
module Paths {
  import opened Wrappers

  /** `s.rfind(c)`, `None` for -1. */
  function LastIndexOf(s: string, c: char): (r: Option<nat>)
    ensures r.None? <==> c !in s
    ensures r.Some? ==> r.value < |s| && s[r.value] == c && c !in s[r.value + 1..]
  {
    if s == "" then None
    else if s[|s| - 1] == c then Some(|s| - 1)
    else
      var r := LastIndexOf(s[..|s| - 1], c);
      assert s == s[..|s| - 1] + [s[|s| - 1]];
      r
  }

  /** `os.path.basename`: what follows the last '/'. */
  function Basename(p: string): (r: string)
    ensures '/' !in r
  {
    match LastIndexOf(p, '/')
    case None => p
    case Some(i) => p[i + 1..]
  }

  /** `s.rstrip(c)` for one character. */
  function RStripChar(s: string, c: char): (r: string)
    ensures |r| <= |s| && r == s[..|r|]
    ensures |r| > 0 ==> r[|r| - 1] != c
    ensures forall i :: |r| <= i < |s| ==> s[i] == c
  {
    if |s| > 0 && s[|s| - 1] == c then RStripChar(s[..|s| - 1], c) else s
  }

  /** Every character of `s` is `c`. */
  predicate AllChar(s: string, c: char) {
    forall i :: 0 <= i < |s| ==> s[i] == c
  }

  /** `os.path.dirname`: what precedes the last '/', without its trailing
      slashes unless it is made of slashes only. */
  function Dirname(p: string): string {
    var head := match LastIndexOf(p, '/') case None => "" case Some(i) => p[..i + 1];
    if head != "" && !AllChar(head, '/') then RStripChar(head, '/') else head
  }

  /** Some character of `s` is not a '.'. */
  predicate HasNonDot(s: string) {
    exists i :: 0 <= i < |s| && s[i] != '.'
  }

  /** `os.path.splitext`: the extension runs from the last '.' when that dot
      lies after the last '/' and is not one of the leading dots of the
      file name; otherwise it is empty. */
  function SplitExt(p: string): (string, string) {
    var start := match LastIndexOf(p, '/') case None => 0 case Some(i) => i + 1;
    match LastIndexOf(p, '.')
    case None => (p, "")
    case Some(d) =>
      if start <= d && HasNonDot(p[start..d]) then (p[..d], p[d..]) else (p, "")
  }

  /** `os.path.splitext(os.path.basename(p))[0]`. */
  function Stem(p: string): string {
    SplitExt(Basename(p)).0
  }

  /** The two parts put back together are the path; the extension is empty
      or starts with the only '.' it holds, and never holds a '/'. */
  lemma SplitExtParts(p: string)
    ensures var (root, ext) := SplitExt(p);
      && root + ext == p
      && (ext == "" || (ext[0] == '.' && '.' !in ext[1..]))
      && '/' !in ext
  {
    var start := match LastIndexOf(p, '/') case None => 0 case Some(i) => i + 1;
    match LastIndexOf(p, '.')
    case None =>
    case Some(d) =>
      if start <= d && HasNonDot(p[start..d]) {
        assert p[..d] + p[d..] == p;
        assert p[d..][1..] == p[d + 1..];
      }
  }

  /** An extension with one leading '.', added to a name whose last
      character is neither '.' nor '/', is split off again. */
  lemma SplitExtAppend(root: string, ext: string)
    requires root != "" && root[|root| - 1] != '.' && root[|root| - 1] != '/'
    requires |ext| >= 1 && ext[0] == '.' && '.' !in ext[1..] && '/' !in ext
    ensures SplitExt(root + ext) == (root, ext)
  {
    var p := root + ext;
    var d := |root|;
    assert p[d] == '.';
    assert p[d + 1..] == ext[1..];
    assert LastIndexOf(p, '.') == Some(d);
    var start := match LastIndexOf(p, '/') case None => 0 case Some(i) => i + 1;
    if LastIndexOf(p, '/').Some? {
      var i := LastIndexOf(p, '/').value;
      assert i != d - 1;
    }
    assert start <= d - 1;
    assert p[start..d][d - 1 - start] == root[d - 1];
    assert p[..d] == root && p[d..] == ext;
  }

  /** A bare file name has no directory and is its own base name. */
  lemma BareName(name: string)
    requires '/' !in name
    ensures Dirname(name) == "" && Basename(name) == name
  {
  }

  /** A directory not ending in '/', a '/' and a file name split back into
      the directory and the file name. */
  lemma DirAndBase(dir: string, name: string)
    requires dir != "" && dir[|dir| - 1] != '/'
    requires '/' !in name
    ensures Dirname(dir + "/" + name) == dir
    ensures Basename(dir + "/" + name) == name
  {
    var p := dir + "/" + name;
    var d := |dir|;
    assert p[d] == '/';
    assert p[d + 1..] == name;
    assert LastIndexOf(p, '/') == Some(d);
    var head := p[..d + 1];
    assert head == dir + "/";
    assert head[d - 1] != '/';
    assert head[..d] == dir;
  }
}
