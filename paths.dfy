/** The part of `std::path::Path` that decides artifact file names:
    `set_extension`, which replaces everything after the file stem. */
module Paths {
  import opened Wrappers

  /** `s` contains no `.`. */
  predicate DotFree(s: string)
  {
    forall k :: 0 <= k < |s| ==> s[k] != '.'
  }

  function LastIndexOf(s: string, c: char): (r: Option<nat>)
    ensures r.Some? ==> r.value < |s| && s[r.value] == c && forall i :: r.value < i < |s| ==> s[i] != c
    ensures r.None? ==> forall i :: 0 <= i < |s| ==> s[i] != c
  {
    if s == [] then None
    else if s[|s| - 1] == c then Some(|s| - 1)
    else LastIndexOf(s[..|s| - 1], c)
  }

  /** `Path::file_stem` of a single file-name component: the text before the
      last `.`, or the whole name when it has no `.` or when its last `.` is
      its first character (a hidden-file name such as `.cfg`). */
  function FileStem(name: string): (stem: string)
    ensures stem <= name
    ensures LastIndexOf(name, '.').None? ==> stem == name
  {
    match LastIndexOf(name, '.')
    case None => name
    case Some(k) => if k == 0 then name else name[..k]
  }

  /** `path.set_extension(ext)` on a path whose last component is `name`
      (`ext` non-empty): truncate to the stem, then append `.ext`. */
  function SetExtension(name: string, ext: string): (r: string)
    requires ext != []
    ensures |r| > |ext| && r[|r| - |ext| - 1..] == "." + ext
  {
    FileStem(name) + "." + ext
  }

  /** A name without a dot simply gains the extension. */
  lemma SetExtensionNoDot(name: string, ext: string)
    requires ext != []
    ensures DotFree(name) ==> SetExtension(name, ext) == name + "." + ext
  {
  }

  /** A name with an extension keeps its stem and has only the text after
      its last dot replaced. */
  lemma SetExtensionReplaces(p: string, e: string, ext: string)
    requires ext != [] && p != []
    requires DotFree(e)
    ensures SetExtension(p + "." + e, ext) == p + "." + ext
  {
    var name := p + "." + e;
    assert name[|p|] == '.';
    forall k | |p| < k < |name| ensures name[k] != '.' {
      assert name[k] == e[k - |p| - 1];
    }
    assert LastIndexOf(name, '.') == Some(|p|);
    assert name[..|p|] == p;
  }

  /** A dot-free, non-empty leading part of a name survives `set_extension`:
      the stem can only lose text after it. */
  lemma SetExtensionKeepsPrefix(p: string, rest: string, ext: string)
    requires ext != [] && p != []
    requires forall i :: 0 <= i < |p| ==> p[i] != '.'
    ensures p <= SetExtension(p + rest, ext)
  {
    var name := p + rest;
    match LastIndexOf(name, '.')
    case None =>
    case Some(k) =>
      assert name[k] == '.';
      assert k >= |p|;
      assert name[..k][..|p|] == p;
  }
}
