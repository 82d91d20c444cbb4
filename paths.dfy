/**
 * The parts of Rust's `std::path` the program relies on, for a single file-name component:
 * `file_stem` and `with_extension`.
 */
module Paths {
  import opened Wrappers

  /** A component `Path::file_name` returns unchanged: not empty, not `.` or `..`, no separator. */
  predicate IsPlainFileName(name: string)
  {
    name != "" && name != "." && name != ".." && '/' !in name
  }

  /** The position of the last `.` in `name`, if any. */
  function LastDot(name: string): (r: Option<nat>)
    ensures r.None? ==> '.' !in name
    ensures r.Some? ==> r.value < |name| && name[r.value] == '.' && '.' !in name[r.value + 1..]
  {
    if name == [] then None
    else if name[|name| - 1] == '.' then Some(|name| - 1)
    else
      var r := LastDot(name[..|name| - 1]);
      assert name == name[..|name| - 1] + [name[|name| - 1]];
      if r.Some? then
        assert name[r.value + 1..] == name[..|name| - 1][r.value + 1..] + [name[|name| - 1]];
        r
      else
        r
  }

  /**
   * `Path::file_stem` of a plain file name: the text before the last `.`, except that `..`
   * and a name whose only `.` is its first character are their own stem.
   */
  function FileStem(name: string): (stem: string)
    ensures stem <= name
    ensures name != [] ==> stem != []
  {
    if name == ".." then name
    else match LastDot(name)
      case None => name
      case Some(i) => if i == 0 then name else name[..i]
  }

  /**
   * `Path::with_extension(ext)` for a path whose last component is `name`: the stem of
   * `name`, a `.`, then `ext` (any previous extension is replaced).
   */
  function WithExtension(name: string, ext: string): (r: string)
    requires IsPlainFileName(name) && ext != []
    ensures '.' !in ext ==> FileStem(r) == FileStem(name)
  {
    var r := FileStem(name) + "." + ext;
    if '.' in ext then r else StemOfExtended(FileStem(name), ext); r
  }

  /** A stem-plus-extension name gives back its stem, whenever that stem is not empty. */
  lemma StemOfExtended(stem: string, ext: string)
    requires stem != [] && ext != [] && '.' !in ext
    ensures FileStem(stem + "." + ext) == stem
  {
    var name := stem + "." + ext;
    assert name[|stem|] == '.';
    assert name[|stem| + 1..] == ext;
    assert name[..|stem|] == stem;
    assert |name| > 2;
  }
}
