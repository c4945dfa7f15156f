/**
 * The parts of Rust's `std::path::Path` that the commands use to name their
 * inputs and outputs: `file_name`, `file_stem`, `extension` and
 * `with_extension`. Paths are strings whose components are separated by
 * `/`; a path is modelled without `.` components and without trailing
 * separators, so its file name is the text after its last `/`.
 */
module Paths {
  import opened Common

  /** Index just past the last `/` of `p` (0 when there is none). */
  function DirLength(p: string): (n: nat)
    ensures n <= |p|
    ensures n > 0 ==> p[n - 1] == '/'
    ensures forall i :: n <= i < |p| ==> p[i] != '/'
  {
    if p == [] then 0
    else if p[|p| - 1] == '/' then |p|
    else DirLength(p[..|p| - 1])
  }

  predicate NoSlash(s: string) {
    forall i :: 0 <= i < |s| ==> s[i] != '/'
  }

  lemma NoSlashJoin(a: string, b: string)
    requires NoSlash(a) && NoSlash(b)
    ensures NoSlash(a + b)
  {
  }

  lemma NoSlashPrefix(s: string, n: nat)
    requires NoSlash(s) && n <= |s|
    ensures NoSlash(s[..n])
  {
  }

  /** `Path::file_name`: the last component, absent when it is empty or `..`. */
  function FileName(p: string): (r: Option<string>)
    ensures r.Some? ==> r.value != [] && r.value != ".." && r.value == p[DirLength(p)..]
    ensures r.Some? ==> NoSlash(r.value)
  {
    var name := p[DirLength(p)..];
    if name == [] || name == ".." then None else Some(name)
  }

  /** Index of the last `.` in `s`, if any. */
  function LastDot(s: string): (r: Option<nat>)
    ensures r.Some? ==> r.value < |s| && s[r.value] == '.'
    ensures r.Some? ==> forall i :: r.value < i < |s| ==> s[i] != '.'
    ensures r.None? ==> forall i :: 0 <= i < |s| ==> s[i] != '.'
  {
    if s == [] then None
    else if s[|s| - 1] == '.' then Some(|s| - 1)
    else LastDot(s[..|s| - 1])
  }

  /**
   * Rust's split of a file name at its last dot into stem and extension:
   * `..`, a name without a dot, and a name whose only leading dot is its last
   * one (`.bashrc`) have no extension and are their own stem.
   */
  function SplitAtDot(name: string): (r: (string, Option<string>))
    ensures r.1.None? ==> r.0 == name
    ensures |r.0| <= |name| && r.0 == name[..|r.0|]
    ensures r.1.Some? ==> r.0 != [] && name == r.0 + "." + r.1.value
    ensures r.1.Some? ==> forall i :: 0 <= i < |r.1.value| ==> r.1.value[i] != '.'
  {
    if name == ".." then (name, None)
    else match LastDot(name)
      case None => (name, None)
      case Some(k) =>
        if k == 0 then (name, None)
        else
          assert name == name[..k] + "." + name[k + 1..];
          (name[..k], Some(name[k + 1..]))
  }

  /** `Path::extension`. */
  function Extension(p: string): Option<string>
  {
    match FileName(p)
    case None => None
    case Some(name) => SplitAtDot(name).1
  }

  /**
   * `Path::with_extension`: the path cut right after the file stem, then
   * `.` and the new extension unless that is empty; a path without a file
   * name is returned unchanged.
   */
  function WithExtension(p: string, ext: string): (r: string)
  {
    match FileName(p)
    case None => p
    case Some(name) =>
      var stem := SplitAtDot(name).0;
      p[..DirLength(p)] + stem + (if ext == [] then "" else "." + ext)
  }

  lemma FileNameOfJoin(dir: string, name: string)
    requires NoSlash(name) && name != [] && name != ".."
    requires dir == [] || dir[|dir| - 1] == '/'
    ensures DirLength(dir + name) == |dir|
    ensures FileName(dir + name) == Some(name)
  {
    assert (dir + name)[|dir|..] == name;
  }

  lemma {:induction false} LastDotOfSuffix(s: string, e: string)
    requires forall i :: 0 <= i < |e| ==> e[i] != '.'
    ensures LastDot(s + "." + e) == Some(|s|)
    decreases |e|
  {
    var t := s + "." + e;
    if e == [] {
      assert t[|t| - 1] == '.';
    } else {
      assert t[..|t| - 1] == s + "." + e[..|e| - 1];
      LastDotOfSuffix(s, e[..|e| - 1]);
    }
  }

  lemma SplitAtDotOfSuffix(t: string, stem: string, e: string)
    requires t == stem + "." + e
    requires stem != [] && t != ".."
    requires forall i :: 0 <= i < |e| ==> e[i] != '.'
    ensures SplitAtDot(t).0 == stem && SplitAtDot(t).1 == Some(e)
  {
    LastDotOfSuffix(stem, e);
    assert t[..|stem|] == stem && t[|stem| + 1..] == e;
  }

  lemma ExtensionOfJoin(dir: string, left: string, e: string)
    requires dir == [] || dir[|dir| - 1] == '/'
    requires NoSlash(left) && NoSlash(e) && |left| >= 2
    requires forall i :: 0 <= i < |e| ==> e[i] != '.'
    ensures Extension(dir + (left + "." + e)) == Some(e)
  {
    var name := left + "." + e;
    NoSlashJoin(left, ".");
    NoSlashJoin(left + ".", e);
    assert |name| >= 3;
    FileNameOfJoin(dir, name);
    SplitAtDotOfSuffix(name, left, e);
  }

  /**
   * Giving a named file a new dotted extension `q.e` (no `/` in it, `e`
   * without dots) keeps the directory and the stem and makes `e` the
   * extension of the result.
   */
  lemma WithExtensionExtension(p: string, q: string, e: string)
    requires FileName(p).Some?
    requires NoSlash(q) && NoSlash(e)
    requires forall i :: 0 <= i < |e| ==> e[i] != '.'
    ensures var stem := SplitAtDot(FileName(p).value).0;
      WithExtension(p, q + "." + e) == p[..DirLength(p)] + stem + ("." + (q + "." + e))
    ensures Extension(WithExtension(p, q + "." + e)) == Some(e)
  {
    var dir := p[..DirLength(p)];
    var name := FileName(p).value;
    var stem := SplitAtDot(name).0;
    var left := stem + "." + q;
    assert WithExtension(p, q + "." + e) == dir + stem + ("." + (q + "." + e));
    assert stem + ("." + (q + "." + e)) == left + "." + e;
    assert dir + stem + ("." + (q + "." + e)) == dir + (left + "." + e);
    NoSlashPrefix(name, |stem|);
    NoSlashJoin(stem, ".");
    NoSlashJoin(stem + ".", q);
    ExtensionOfJoin(dir, left, e);
  }
}
