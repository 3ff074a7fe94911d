/**
 * The parts of `System.IO.Path` the application relies on, for Windows paths whose
 * directory separators are '\' and '/'.
 */
module Paths {

  predicate IsSeparator(c: char) {
    c == '\\' || c == '/'
  }

  /** Position just after the last directory separator of `p` (0 when there is none). */
  function NameStart(p: string): (k: nat)
    ensures k <= |p|
    ensures forall i | k <= i < |p| :: !IsSeparator(p[i])
    ensures k > 0 ==> IsSeparator(p[k - 1])
  {
    NameStartBefore(p, |p|)
  }

  /** Position just after the last directory separator among the first `n` characters of `p`. */
  function NameStartBefore(p: string, n: nat): (k: nat)
    requires n <= |p|
    ensures k <= n
    ensures forall i | k <= i < n :: !IsSeparator(p[i])
    ensures k > 0 ==> IsSeparator(p[k - 1])
  {
    if n == 0 then 0
    else if IsSeparator(p[n - 1]) then n
    else NameStartBefore(p, n - 1)
  }

  /** `Path.GetFileName`: what follows the last directory separator. */
  function FileName(p: string): (name: string)
    ensures |name| <= |p| && p[|p| - |name|..] == name
    ensures forall i | 0 <= i < |name| :: !IsSeparator(name[i])
  {
    p[NameStart(p)..]
  }

  /** Position of the last '.' in `s`, or -1. */
  function LastDot(s: string): (k: int)
    ensures -1 <= k < |s|
    ensures k >= 0 ==> s[k] == '.'
    ensures forall i | k < i < |s| :: s[i] != '.'
  {
    LastDotBefore(s, |s|)
  }

  /** Position of the last '.' among the first `n` characters of `s`, or -1. */
  function LastDotBefore(s: string, n: nat): (k: int)
    requires n <= |s|
    ensures -1 <= k < n
    ensures k >= 0 ==> s[k] == '.'
    ensures forall i | k < i < n :: s[i] != '.'
  {
    if n == 0 then -1
    else if s[n - 1] == '.' then n - 1
    else LastDotBefore(s, n - 1)
  }

  /**
   * `Path.GetExtension`: from the last '.' of the file name to its end, or "" when the
   * name has no '.' or ends with it.
   */
  function Extension(p: string): (ext: string)
    ensures ext == [] || (|ext| >= 2 && ext[0] == '.' && '.' !in ext[1..])
  {
    var name := FileName(p);
    var d := LastDot(name);
    if d < 0 || d == |name| - 1 then "" else name[d..]
  }

  /** `Path.GetFileNameWithoutExtension`: the file name cut before its last '.'. */
  function NameWithoutExtension(p: string): (stem: string)
    ensures |stem| <= |FileName(p)| && FileName(p)[..|stem|] == stem
  {
    var name := FileName(p);
    var d := LastDot(name);
    if d < 0 then name else name[..d]
  }

  /**
   * A file name is its stem followed by its extension, except for a name that ends
   * with '.', whose stem drops that dot and whose extension is empty.
   */
  lemma StemAndExtension(p: string)
    ensures Extension(p) != [] ==> NameWithoutExtension(p) + Extension(p) == FileName(p)
    ensures Extension(p) == [] ==>
      FileName(p) == NameWithoutExtension(p) || FileName(p) == NameWithoutExtension(p) + "."
  {
    var name := FileName(p);
    var d := LastDot(name);
    if 0 <= d {
      assert name == name[..d] + name[d..];
      if d == |name| - 1 {
        assert name[d..] == ".";
      }
    }
  }
}
