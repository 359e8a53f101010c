/**
 * Filesystem paths as strings, the way `std::path` treats them on a Unix
 * host: `/` separates components. Paths are taken to be written without
 * repeated or trailing separators and without `.` components anywhere, the
 * last one included (for `a/.` Rust's `file_name` skips the `.` and answers
 * `a`, which `FileName` below does not).
 */
module Paths {
  import opened Wrappers
  import opened Text

  type Path = string

  /** `std::path::MAIN_SEPARATOR` on the modelled (Unix) host. */
  const MainSeparator: char := '/'

  /** `base.join(name)` for a relative one-component `name`. */
  function Join(base: Path, name: string): (r: Path)
    ensures |base| + |name| <= |r| <= |base| + |name| + 1
    ensures r[..|base|] == base && r[|r| - |name|..] == name
    ensures base != [] && base[|base| - 1] != '/' ==> |base| < |r| && r[|base|] == '/'
  {
    if base == [] then name
    else if base[|base| - 1] == '/' then base + name
    else base + "/" + name
  }

  /** `path.parent()`: the path without its last component. */
  function Parent(p: Path): (r: Option<Path>)
    ensures r.None? <==> p == "" || p == "/"
    ensures r.Some? ==> |r.value| < |p| && StartsWith(p, r.value) && '/' !in p[|r.value| + 1..]
    ensures r.Some? ==> (r.value == "" <==> '/' !in p) && (r.value != "" && r.value != "/" ==> p[|r.value|] == '/')
  {
    if p == "" || p == "/" then None
    else
      match LastIndexOf(p, '/')
      case None => Some("")
      case Some(i) => if i == 0 then Some("/") else Some(p[..i])
  }

  /** A plain component name: not empty, no separator, not `.` or `..`. */
  predicate IsComponentName(name: string)
  {
    name != "" && name != "." && name != ".." && '/' !in name
  }

  /** `path.file_name()`: the last component, unless it is `..` (or there is none). */
  function FileName(p: Path): (r: Option<string>)
    ensures r.Some? ==> IsComponentName(r.value) && |r.value| <= |p| && p[|p| - |r.value|..] == r.value
    ensures r.Some? ==> |r.value| == |p| || p[|p| - |r.value| - 1] == '/'
  {
    var last := match LastIndexOf(p, '/') case None => p case Some(i) => p[i + 1..];
    if last == "" || last == "." || last == ".." then None else Some(last)
  }

  /** Joining a component name and taking the parent gives back the base. */
  lemma ParentOfJoin(base: Path, name: string)
    requires base != [] && IsComponentName(name)
    requires base == "/" || base[|base| - 1] != '/'
    ensures Parent(Join(base, name)) == Some(base)
  {
    var j := Join(base, name);
    if base == "/" {
      assert j == "/" + name;
      assert j[0] == '/' && j[1..] == name;
    } else {
      assert j == base + "/" + name;
      assert j[|base|] == '/' && j[|base| + 1..] == name;
      assert j[..|base|] == base;
    }
    var i := LastIndexOf(j, '/');
    assert i.Some?;
    if base == "/" {
      assert i.value == 0;
    } else {
      assert i.value == |base|;
    }
  }

  /** Joining a component name and taking the file name gives back the name. */
  lemma FileNameOfJoin(base: Path, name: string)
    requires IsComponentName(name)
    ensures FileName(Join(base, name)) == Some(name)
  {
    var j := Join(base, name);
    var k := |j| - |name|;
    assert j[k..] == name;
    assert k == 0 || j[k - 1] == '/';
    var i := LastIndexOf(j, '/');
    if k == 0 {
      assert j == name;
    } else {
      assert i.Some?;
      assert i.value == k - 1;
    }
  }
}
